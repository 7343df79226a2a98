/** Tokens written as text (codec/tojson.go): appendJSONToken puts back the commas and colons the
    tokens leave out. */
module JsonText {
  import opened JsonValue
  import JsonNumber

  /** How a string JSON cannot quote as it stands is quoted: encoding/json's Marshal in the program. */
  type Quoter = string -> string

  /** plainJSONString. */
  predicate Plain(s: string) {
    forall i :: 0 <= i < |s| ==> ' ' <= s[i] <= '~' && s[i] != '"' && s[i] != '\\'
  }

  /** appendJSONString, as the text it adds. */
  function Quoted(q: Quoter, s: string): string {
    if Plain(s) then "\"" + (s + "\"") else q(s)
  }

  /** appendJSONToken: one token with the separator in front of it, and whether the next takes one. */
  function AppendToken(q: Quoter, out: string, tok: Token, comma: bool): (string, bool) {
    match tok
    case ObjectEnd => (out + "}", true)
    case ArrayEnd => (out + "]", true)
    case _ =>
      var out := if comma then out + "," else out;
      match tok
      case ObjectStart => (out + "{", false)
      case ArrayStart => (out + "[", false)
      case Key(name) => (out + Quoted(q, name) + ":", false)
      case StringToken(text) => (out + Quoted(q, text), true)
      case NumberToken(digits) => (out + digits, true)
      case BoolToken(b) => (out + (if b then "true" else "false"), true)
      case NullToken => (out + "null", true)
  }

  function AppendAll(q: Quoter, out: string, toks: seq<Token>, comma: bool): (string, bool)
    decreases |toks|
  {
    if toks == [] then (out, comma)
    else
      var next := AppendToken(q, out, toks[0], comma);
      AppendAll(q, next.0, toks[1..], next.1)
  }

  /** ToJSON's loop over the tokens it is handed. */
  method WriteTokens(q: Quoter, toks: seq<Token>) returns (out: string)
    ensures out == AppendAll(q, "", toks, false).0
    ensures forall v :: toks == Tokens(v) ==> out == Text(q, v)
  {
    out := "";
    var comma := false;
    for i := 0 to |toks|
      invariant AppendAll(q, out, toks[i..], comma) == AppendAll(q, "", toks, false)
    {
      assert toks[i..][1..] == toks[i + 1..];
      var next := AppendToken(q, out, toks[i], comma);
      out, comma := next.0, next.1;
    }
    forall v | toks == Tokens(v) ensures out == Text(q, v) { WritesText(q, v); }
  }

  // ---------------------------------------------------------------- the compact text

  /** The compact text of RFC 8259 with `rest` after it. */
  ghost function TextThen(q: Quoter, v: Json, rest: string): string
    decreases v
  {
    match v
    case Null => "null" + rest
    case Bool(b) => (if b then "true" else "false") + rest
    case Number(digits) => digits + rest
    case Str(text) => Quoted(q, text) + rest
    case Arr(items) => "[" + ItemsThen(q, items, true, "]" + rest)
    case Obj(members) => "{" + MembersThen(q, members, true, "}" + rest)
  }

  /** Values with a comma between two of them; first says there is none before these. */
  ghost function ItemsThen(q: Quoter, items: seq<Json>, first: bool, rest: string): string
    decreases items
  {
    if items == [] then rest
    else Lead(first) + TextThen(q, items[0], ItemsThen(q, items[1..], false, rest))
  }

  ghost function MembersThen(q: Quoter, members: seq<Member>, first: bool, rest: string): string
    decreases members
  {
    if members == [] then rest
    else Lead(first) + MemberThen(q, members[0], MembersThen(q, members[1..], false, rest))
  }

  ghost function MemberThen(q: Quoter, m: Member, rest: string): string
    decreases m
  {
    Quoted(q, m.name) + (":" + TextThen(q, m.value, rest))
  }

  function Lead(first: bool): string { if first then "" else "," }

  ghost function Text(q: Quoter, v: Json): string {
    TextThen(q, v, "")
  }

  // ---------------------------------------------------------------- the tokens write the text

  lemma Assoc(a: string, b: string, c: string)
    ensures (a + b) + c == a + (b + c)
  {
  }

  lemma {:induction false} AppendConcat(q: Quoter, out: string, a: seq<Token>, b: seq<Token>, comma: bool)
    ensures var mid := AppendAll(q, out, a, comma);
            AppendAll(q, out, a + b, comma) == AppendAll(q, mid.0, b, mid.1)
    decreases |a|
  {
    if a == [] {
      assert a + b == b;
    } else {
      assert (a + b)[0] == a[0] && (a + b)[1..] == a[1..] + b;
      var next := AppendToken(q, out, a[0], comma);
      AppendConcat(q, next.0, a[1..], b, next.1);
    }
  }

  lemma AppendOne(q: Quoter, out: string, tok: Token, comma: bool)
    ensures AppendAll(q, out, [tok], comma) == AppendToken(q, out, tok, comma)
  {
    assert [tok][1..] == [];
  }

  /** A collection's tokens: the opener, what it holds, the closer. */
  lemma AppendBetween(q: Quoter, out: string, open: Token, inner: seq<Token>, close: Token, comma: bool)
    ensures var a := AppendToken(q, out, open, comma);
            var b := AppendAll(q, a.0, inner, a.1);
            AppendAll(q, out, [open] + (inner + [close]), comma) == AppendToken(q, b.0, close, b.1)
  {
    var a := AppendToken(q, out, open, comma);
    AppendConcat(q, out, [open], inner + [close], comma);
    AppendOne(q, out, open, comma);
    AppendConcat(q, a.0, inner, [close], a.1);
    var b := AppendAll(q, a.0, inner, a.1);
    AppendOne(q, b.0, close, b.1);
  }

  /** From any buffer, a value's tokens add a comma where one is due, and the value's text. */
  lemma {:induction false} AppendValue(q: Quoter, out: string, v: Json, comma: bool, rest: string)
    ensures AppendAll(q, out, Tokens(v), comma).0 + rest == out + (Lead(!comma) + TextThen(q, v, rest))
    ensures AppendAll(q, out, Tokens(v), comma).1
    decreases v, 1
  {
    var lead := Lead(!comma);
    Assoc(out, lead, TextThen(q, v, rest));
    if !comma { assert out + lead == out; }
    match v
    case Arr(items) =>
      AppendBetween(q, out, ArrayStart, ItemTokens(items), ArrayEnd, comma);
      var out1 := out + lead + "[";
      AppendItems(q, out1, items, false, "]" + rest, v);
      var b := AppendAll(q, out1, ItemTokens(items), false);
      Assoc(b.0, "]", rest);
      Assoc(out + lead, "[", ItemsThen(q, items, true, "]" + rest));
    case Obj(members) =>
      AppendBetween(q, out, ObjectStart, MemberTokens(members), ObjectEnd, comma);
      var out1 := out + lead + "{";
      AppendMembers(q, out1, members, false, "}" + rest, v);
      var b := AppendAll(q, out1, MemberTokens(members), false);
      Assoc(b.0, "}", rest);
      Assoc(out + lead, "{", MembersThen(q, members, true, "}" + rest));
    case _ =>
      AppendOne(q, out, Tokens(v)[0], comma);
      AppendScalar(q, out + lead, v, rest);
  }

  lemma AppendScalar(q: Quoter, out: string, v: Json, rest: string)
    requires !v.Arr? && !v.Obj?
    ensures AppendToken(q, out, Tokens(v)[0], false).0 + rest == out + TextThen(q, v, rest)
  {
    match v
    case Null => Assoc(out, "null", rest);
    case Bool(b) => Assoc(out, if b then "true" else "false", rest);
    case Number(digits) => Assoc(out, digits, rest);
    case Str(text) => Assoc(out, Quoted(q, text), rest);
  }

  lemma {:induction false} AppendItems(q: Quoter, out: string, items: seq<Json>, comma: bool, rest: string, whole: Json)
    requires forall i :: 0 <= i < |items| ==> items[i] < whole
    ensures AppendAll(q, out, ItemTokens(items), comma).0 + rest == out + ItemsThen(q, items, !comma, rest)
    decreases whole, 0, |items|
  {
    if items != [] {
      var more := ItemsThen(q, items[1..], false, rest);
      AppendConcat(q, out, Tokens(items[0]), ItemTokens(items[1..]), comma);
      AppendValue(q, out, items[0], comma, more);
      var mid := AppendAll(q, out, Tokens(items[0]), comma);
      AppendItems(q, mid.0, items[1..], true, rest, whole);
    }
  }

  lemma {:induction false} AppendMembers(q: Quoter, out: string, members: seq<Member>, comma: bool, rest: string,
                                         whole: Json)
    requires forall i :: 0 <= i < |members| ==> members[i] < whole
    ensures AppendAll(q, out, MemberTokens(members), comma).0 + rest == out + MembersThen(q, members, !comma, rest)
    decreases whole, 0, |members|
  {
    if members != [] {
      var m := members[0];
      var more := MembersThen(q, members[1..], false, rest);
      AppendConcat(q, out, OneMember(m), MemberTokens(members[1..]), comma);
      AppendMember(q, out, m, comma, more, whole);
      var mid := AppendAll(q, out, OneMember(m), comma);
      AppendMembers(q, mid.0, members[1..], true, rest, whole);
    }
  }

  lemma {:induction false} AppendMember(q: Quoter, out: string, m: Member, comma: bool, rest: string, whole: Json)
    requires m < whole
    ensures AppendAll(q, out, OneMember(m), comma).0 + rest == out + (Lead(!comma) + MemberThen(q, m, rest))
    ensures AppendAll(q, out, OneMember(m), comma).1
    decreases whole, 0, 0
  {
    var lead, name := Lead(!comma), Quoted(q, m.name);
    var out1 := if comma then out + "," else out;
    assert out1 == out + lead;
    AppendConcat(q, out, [Key(m.name)], Tokens(m.value), comma);
    AppendOne(q, out, Key(m.name), comma);
    AppendValue(q, out1 + name + ":", m.value, false, rest);
    var text := TextThen(q, m.value, rest);
    assert Lead(true) + text == text;
    Assoc(out1 + name, ":", text);
    Assoc(out1, name, ":" + text);
    Assoc(out, lead, name + (":" + text));
  }

  /** The tokens of a value, written into an empty buffer, are its compact text. */
  lemma WritesText(q: Quoter, v: Json)
    ensures AppendAll(q, "", Tokens(v), false) == (Text(q, v), true)
  {
    AppendValue(q, "", v, false, "");
    var out := AppendAll(q, "", Tokens(v), false).0;
    assert out + "" == out;
    assert "" + (Lead(true) + Text(q, v)) == Text(q, v);
  }

  // ---------------------------------------------------------------- the text of a value by those of its parts

  lemma {:induction false} ThenIsText(q: Quoter, v: Json, rest: string)
    ensures TextThen(q, v, rest) == Text(q, v) + rest
    decreases v, 1
  {
    match v
    case Arr(items) =>
      assert "]" + "" == "]";
      ItemsThenRest(q, items, true, "]", rest, v);
      Assoc("[", ItemsThen(q, items, true, "]"), rest);
    case Obj(members) =>
      assert "}" + "" == "}";
      MembersThenRest(q, members, true, "}", rest, v);
      Assoc("{", MembersThen(q, members, true, "}"), rest);
    case Str(text) => assert Quoted(q, text) + "" == Quoted(q, text);
    case Number(digits) => assert digits + "" == digits;
    case _ =>
  }

  lemma {:induction false} ItemsThenRest(q: Quoter, items: seq<Json>, first: bool, more: string, rest: string, v: Json)
    requires forall i :: 0 <= i < |items| ==> items[i] < v
    ensures ItemsThen(q, items, first, more + rest) == ItemsThen(q, items, first, more) + rest
    decreases v, 0, |items|
  {
    if items != [] {
      ItemsThenRest(q, items[1..], false, more, rest, v);
      var x, y := ItemsThen(q, items[1..], false, more + rest), ItemsThen(q, items[1..], false, more);
      ThenIsText(q, items[0], x);
      ThenIsText(q, items[0], y);
      Regroup(Lead(first), Text(q, items[0]), y, rest);
    }
  }

  lemma Regroup(a: string, b: string, c: string, d: string)
    ensures a + (b + (c + d)) == (a + (b + c)) + d
  {
  }

  lemma {:induction false} MembersThenRest(q: Quoter, members: seq<Member>, first: bool, more: string, rest: string,
                                           v: Json)
    requires forall i :: 0 <= i < |members| ==> members[i].value < v
    ensures MembersThen(q, members, first, more + rest) == MembersThen(q, members, first, more) + rest
    decreases v, 0, |members|
  {
    if members != [] {
      MembersThenRest(q, members[1..], false, more, rest, v);
      var x, y := MembersThen(q, members[1..], false, more + rest), MembersThen(q, members[1..], false, more);
      var m := members[0];
      ThenIsText(q, m.value, x);
      ThenIsText(q, m.value, y);
      Regroup(Quoted(q, m.name), ":", Text(q, m.value) + y, rest);
      Assoc(Text(q, m.value), y, rest);
      Assoc(Lead(first), MemberThen(q, m, y), rest);
    }
  }

  /** Values, or members, with commas between them. */
  ghost function ItemTexts(q: Quoter, items: seq<Json>): string {
    if items == [] then "" else if |items| == 1 then Text(q, items[0])
    else Text(q, items[0]) + ("," + ItemTexts(q, items[1..]))
  }

  ghost function MemberText(q: Quoter, m: Member): string {
    Quoted(q, m.name) + (":" + Text(q, m.value))
  }

  ghost function MemberTexts(q: Quoter, members: seq<Member>): string {
    if members == [] then "" else if |members| == 1 then MemberText(q, members[0])
    else MemberText(q, members[0]) + ("," + MemberTexts(q, members[1..]))
  }

  lemma {:induction false} ItemsText(q: Quoter, items: seq<Json>, first: bool, rest: string)
    ensures ItemsThen(q, items, first, rest)
            == (if first || items == [] then "" else ",") + (ItemTexts(q, items) + rest)
    decreases |items|
  {
    if items != [] {
      var more := ItemsThen(q, items[1..], false, rest);
      ItemsText(q, items[1..], false, rest);
      ThenIsText(q, items[0], more);
      if |items| > 1 { AssocThree(Text(q, items[0]), ",", ItemTexts(q, items[1..]), rest); }
    }
  }

  lemma AssocThree(a: string, b: string, c: string, d: string)
    ensures a + (b + (c + d)) == (a + (b + c)) + d
  {
  }

  lemma {:induction false} MembersText(q: Quoter, members: seq<Member>, first: bool, rest: string)
    ensures MembersThen(q, members, first, rest)
            == (if first || members == [] then "" else ",") + (MemberTexts(q, members) + rest)
    decreases |members|
  {
    if members != [] {
      var m, more := members[0], MembersThen(q, members[1..], false, rest);
      MembersText(q, members[1..], false, rest);
      ThenIsText(q, m.value, more);
      Regroup(Quoted(q, m.name), ":", Text(q, m.value), more);
      if |members| > 1 { AssocThree(MemberText(q, m), ",", MemberTexts(q, members[1..]), rest); }
    }
  }

  /** What a value's text is, by section 2 to 5 of RFC 8259, of the texts of what it holds. */
  lemma TextByParts(q: Quoter, v: Json)
    ensures Text(q, v) == match v
                          case Null => "null"
                          case Bool(b) => if b then "true" else "false"
                          case Number(digits) => digits
                          case Str(text) => Quoted(q, text)
                          case Arr(items) => "[" + (ItemTexts(q, items) + "]")
                          case Obj(members) => "{" + (MemberTexts(q, members) + "}")
  {
    match v
    case Arr(items) => ItemsText(q, items, true, "]" + "");
    case Obj(members) => MembersText(q, members, true, "}" + "");
    case Str(text) => assert Quoted(q, text) + "" == Quoted(q, text);
    case Number(digits) => assert digits + "" == digits;
    case _ =>
  }

  // ---------------------------------------------------------------- distinct values, distinct texts

  predicate HexDigit(c: char) {
    '0' <= c <= '9' || 'a' <= c <= 'f' || 'A' <= c <= 'F'
  }

  /** How many characters the escape or the bare character s opens with takes: section 7 of RFC 8259. */
  function CharLength(s: string): nat
    requires s != ""
  {
    if s[0] != '\\' then 1 else if |s| > 1 && s[1] == 'u' then 6 else 2
  }

  /** A backslash and one of eight characters, a \u and four hexadecimal digits, or a character that is no quote
      and no control character. */
  predicate CharAllowed(s: string)
    requires s != ""
  {
    if s[0] != '\\' then s[0] >= ' ' && s[0] != '"'
    else if |s| > 1 && s[1] == 'u' then |s| >= 6 && forall i :: 2 <= i < 6 ==> HexDigit(s[i])
    else |s| > 1 && s[1] in "\"\\/bfnrt"
  }

  /** What stands between the quotes of a JSON string. */
  predicate StringBody(s: string) {
    s == "" || (CharAllowed(s) && StringBody(s[CharLength(s)..]))
  }

  predicate HexCode(n: int) {
    0x30 <= n <= 0x39 || 0x41 <= n <= 0x46 || 0x61 <= n <= 0x66
  }

  /** By the codes of section 7 of RFC 8259: what one character, an escape of two, and one of six may be, and that
      bodies put together are a body. */
  lemma BodyByCode(c: char, h: string)
    ensures StringBody([c]) <==> c as int >= 0x20 && c as int != 0x22 && c as int != 0x5c
    ensures StringBody(['\\', c]) <==> c as int in {0x22, 0x5c, 0x2f, 0x62, 0x66, 0x6e, 0x72, 0x74}
    ensures |h| == 4 ==>
              (StringBody("\\u" + h) <==> HexCode(h[0] as int) && HexCode(h[1] as int)
                                          && HexCode(h[2] as int) && HexCode(h[3] as int))
  {
    assert [c][1..] == "" && ['\\', c][2..] == "";
    if |h| == 4 {
      var s := "\\u" + h;
      assert s[6..] == "" && s[2] == h[0] && s[3] == h[1] && s[4] == h[2] && s[5] == h[3];
    }
  }

  lemma {:induction false} BodiesJoin(a: string, b: string)
    requires StringBody(a) && StringBody(b)
    ensures StringBody(a + b)
    decreases |a|
  {
    if a == "" {
      assert a + b == b;
    } else {
      var n := CharLength(a);
      assert n <= |a| && (a + b)[n..] == a[n..] + b;
      BodiesJoin(a[n..], b);
    }
  }

  predicate StringLexeme(s: string) {
    |s| > 1 && s[0] == '"' && s[|s| - 1] == '"' && StringBody(s[1..|s| - 1])
  }

  /** A quoter that writes a JSON string wherever it is asked for one, and no two strings alike. */
  ghost predicate Faithful(q: Quoter) {
    && (forall s :: !Plain(s) ==> StringLexeme(q(s)))
    && (forall s, t :: Quoted(q, s) == Quoted(q, t) ==> s == t)
  }

  lemma {:induction false} PlainBody(s: string)
    requires Plain(s)
    ensures StringBody(s)
    decreases |s|
  {
    if s != "" {
      assert forall i :: 0 <= i < |s[1..]| ==> s[1..][i] == s[i + 1];
      PlainBody(s[1..]);
    }
  }

  /** What goes between quotes as it stands is a JSON string. */
  lemma QuotedIsString(q: Quoter, s: string)
    requires Faithful(q)
    ensures StringLexeme(Quoted(q, s))
  {
    if Plain(s) {
      var t := "\"" + (s + "\"");
      assert t[1..|t| - 1] == s;
      PlainBody(s);
    }
  }

  /** Printable ASCII but a quote and a backslash is never escaped, "<" and "&" no more than any other. */
  lemma PrintableAsWritten(q: Quoter, s: string)
    requires forall c :: c in s ==> 0x20 <= c as int <= 0x7e && c as int != 0x22 && c as int != 0x5c
    ensures Text(q, Str(s)) == "\"" + s + "\"" && Plain(s)
  {
    var text := "\"" + (s + "\"");
    assert forall i :: 0 <= i < |s| ==> s[i] in s;
    assert text + "" == text;
  }

  predicate NumberChar(c: char) {
    '0' <= c <= '9' || c in "+-.eE"
  }

  /** The alphabet of a number and the characters one opens on. */
  predicate NumberLexeme(s: string) {
    s != "" && ('0' <= s[0] <= '9' || s[0] == '-') && forall i :: 0 <= i < |s| ==> NumberChar(s[i])
  }

  /** As every number of RFC 8259 is. */
  lemma JsonNumbersOpen(s: string)
    requires JsonNumber.JsonNumber(s)
    ensures NumberLexeme(s)
  {
    var n :| JsonNumber.Json(n) && JsonNumber.Text(n) == s;
    ExponentChars(n.exp);
    CharsJoin(JsonNumber.Point(n), n.exp);
    CharsJoin(n.whole, JsonNumber.Point(n) + n.exp);
    CharsJoin(n.sign, n.whole + (JsonNumber.Point(n) + n.exp));
    assert s[0] == if n.sign == "" then n.whole[0] else n.sign[0];
  }

  predicate NumberChars(s: string) {
    forall i :: 0 <= i < |s| ==> NumberChar(s[i])
  }

  lemma CharsJoin(a: string, b: string)
    requires NumberChars(a) && NumberChars(b)
    ensures NumberChars(a + b)
  {
  }

  lemma ExponentChars(s: string)
    requires JsonNumber.Exponent(s)
    ensures NumberChars(s)
  {
    forall i | 0 <= i < |s| ensures NumberChar(s[i]) {
      if i > 1 && s[1] in "+-" { assert s[i] == s[2..][i - 2]; }
      if i > 0 && s[1] !in "+-" { assert s[i] == s[1..][i - 1]; }
    }
  }

  ghost predicate Numbers(v: Json)
    decreases v
  {
    match v
    case Number(digits) => NumberLexeme(digits)
    case Arr(items) => forall i :: 0 <= i < |items| ==> Numbers(items[i])
    case Obj(members) => forall i :: 0 <= i < |members| ==> Numbers(members[i].value)
    case _ => true
  }

  /** What may follow a value: nothing, a comma or a closer. */
  predicate Ends(rest: string) {
    rest == "" || rest[0] in ",]}"
  }

  lemma SameChar(a: string, b: string, x: string, y: string)
    requires a != "" && b != "" && CharAllowed(a) && CharAllowed(b) && a + x == b + y
    ensures CharLength(a) == CharLength(b) && CharLength(a) <= |a| && CharLength(b) <= |b|
    ensures a[..CharLength(a)] == b[..CharLength(b)]
  {
    var s, t := a + x, b + y;
    assert s[0] == a[0] && t[0] == b[0];
    if a[0] == '\\' { assert s[1] == a[1] && t[1] == b[1]; }
    var n := CharLength(a);
    assert a[..n] == s[..n] && b[..n] == t[..n];
  }

  lemma Behind(a: string, x: string, n: nat)
    requires n <= |a|
    ensures (a + x)[n..] == a[n..] + x
  {
  }

  lemma {:induction false} BodyUnique(a: string, b: string, x: string, y: string)
    requires StringBody(a) && StringBody(b) && a + ("\"" + x) == b + ("\"" + y)
    ensures a == b && x == y
    decreases |a|
  {
    var s, t := a + ("\"" + x), b + ("\"" + y);
    if a == "" || b == "" {
      assert s[0] == t[0];
      assert a == "" && b == "";
      assert s[1..] == x && t[1..] == y;
    } else {
      assert s[0] == a[0] && t[0] == b[0];
      var n := CharLength(a);
      SameChar(a, b, "\"" + x, "\"" + y);
      Behind(a, "\"" + x, n);
      Behind(b, "\"" + y, n);
      BodyUnique(a[n..], b[n..], x, y);
      assert a == a[..n] + a[n..] && b == b[..n] + b[n..];
    }
  }

  lemma LexemeUnique(a: string, b: string, x: string, y: string)
    requires StringLexeme(a) && StringLexeme(b) && a + x == b + y
    ensures a == b && x == y
  {
    var s := a + x;
    var a', b' := a[1..|a| - 1], b[1..|b| - 1];
    assert a == "\"" + (a' + "\"") && b == "\"" + (b' + "\"");
    assert s[1..] == a' + ("\"" + x);
    assert s[1..] == b' + ("\"" + y);
    BodyUnique(a', b', x, y);
  }

  lemma {:induction false} NumberUnique(a: string, b: string, x: string, y: string)
    requires forall i :: 0 <= i < |a| ==> NumberChar(a[i])
    requires forall i :: 0 <= i < |b| ==> NumberChar(b[i])
    requires Ends(x) && Ends(y) && a + x == b + y
    ensures a == b && x == y
  {
    var s, t := a + x, b + y;
    if a == "" || b == "" {
      assert a == "" ==> s == x;
      assert b == "" ==> t == y;
      assert a == "" && b == "";
    } else {
      assert s[0] == a[0] && t[0] == b[0];
      assert s[1..] == a[1..] + x && t[1..] == b[1..] + y;
      NumberUnique(a[1..], b[1..], x, y);
      assert a == [a[0]] + a[1..] && b == [b[0]] + b[1..];
    }
  }

  /** What a value's text opens on, which tells its kind. */
  function Opening(v: Json): set<char> {
    match v
    case Null => {'n'}
    case Bool(b) => if b then {'t'} else {'f'}
    case Number(_) => {'-', '0', '1', '2', '3', '4', '5', '6', '7', '8', '9'}
    case Str(_) => {'"'}
    case Arr(_) => {'['}
    case Obj(_) => {'{'}
  }

  lemma TextOpens(q: Quoter, v: Json, rest: string)
    requires Faithful(q) && Numbers(v)
    ensures TextThen(q, v, rest) != "" && TextThen(q, v, rest)[0] in Opening(v)
  {
    if v.Str? { QuotedIsString(q, v.text); }
  }

  lemma Same(a: char, x: string, y: string)
    requires [a] + x == [a] + y
    ensures x == y
  {
    assert ([a] + x)[1..] == x && ([a] + y)[1..] == y;
  }

  /** A text is read back in one way: the value it opens with and what follows are determined. */
  lemma {:induction false} TextUnique(q: Quoter, v: Json, w: Json, x: string, y: string)
    requires Faithful(q) && Numbers(v) && Numbers(w) && Ends(x) && Ends(y)
    requires TextThen(q, v, x) == TextThen(q, w, y)
    ensures v == w && x == y
    decreases v, 1
  {
    TextOpens(q, v, x);
    TextOpens(q, w, y);
    match v
    case Null => assert w.Null?; assert ("null" + x)[4..] == x && ("null" + y)[4..] == y;
    case Bool(b) =>
      var t := if b then "true" else "false";
      assert w == v;
      assert (t + x)[|t|..] == x && (t + y)[|t|..] == y;
    case Number(a) => assert w.Number?; NumberUnique(a, w.digits, x, y);
    case Str(a) =>
      assert w.Str?;
      QuotedIsString(q, a);
      QuotedIsString(q, w.text);
      LexemeUnique(Quoted(q, a), Quoted(q, w.text), x, y);
    case Arr(items) =>
      assert w.Arr?;
      Same('[', ItemsThen(q, items, true, "]" + x), ItemsThen(q, w.items, true, "]" + y));
      ItemsUnique(q, items, w.items, true, x, y, v, w);
    case Obj(members) =>
      assert w.Obj?;
      Same('{', MembersThen(q, members, true, "}" + x), MembersThen(q, w.members, true, "}" + y));
      MembersUnique(q, members, w.members, true, x, y, v, w);
  }

  lemma ItemsOpen(q: Quoter, items: seq<Json>, rest: string)
    ensures Ends(ItemsThen(q, items, false, "]" + rest))
  {
  }

  /** The closer comes at once only where there is nothing left to write. */
  lemma ItemsHead(q: Quoter, items: seq<Json>, first: bool, rest: string)
    requires Faithful(q) && forall i :: 0 <= i < |items| ==> Numbers(items[i])
    ensures var text := ItemsThen(q, items, first, "]" + rest);
            text != "" && (text[0] == ']' <==> items == [])
  {
    if items != [] {
      var t := TextThen(q, items[0], ItemsThen(q, items[1..], false, "]" + rest));
      TextOpens(q, items[0], ItemsThen(q, items[1..], false, "]" + rest));
      if first { assert Lead(first) + t == t; }
    }
  }

  lemma {:induction false} ItemsUnique(q: Quoter, a: seq<Json>, b: seq<Json>, first: bool, x: string, y: string,
                                       v: Json, w: Json)
    requires Faithful(q) && (forall i :: 0 <= i < |a| ==> Numbers(a[i]) && a[i] < v)
    requires forall i :: 0 <= i < |b| ==> Numbers(b[i])
    requires ItemsThen(q, a, first, "]" + x) == ItemsThen(q, b, first, "]" + y)
    ensures a == b && x == y
    decreases v, 0, |a|
  {
    ItemsHead(q, a, first, x);
    ItemsHead(q, b, first, y);
    if a == [] || b == [] {
      assert a == [] && b == [];
      Same(']', x, y);
    } else {
      var s, t := ItemsThen(q, a[1..], false, "]" + x), ItemsThen(q, b[1..], false, "]" + y);
      ItemsOpen(q, a[1..], x);
      ItemsOpen(q, b[1..], y);
      if first {
        assert Lead(true) + TextThen(q, a[0], s) == TextThen(q, a[0], s);
        assert Lead(true) + TextThen(q, b[0], t) == TextThen(q, b[0], t);
      } else {
        Same(',', TextThen(q, a[0], s), TextThen(q, b[0], t));
      }
      TextUnique(q, a[0], b[0], s, t);
      ItemsUnique(q, a[1..], b[1..], false, x, y, v, w);
      assert a == [a[0]] + a[1..] && b == [b[0]] + b[1..];
    }
  }

  lemma MembersOpen(q: Quoter, members: seq<Member>, rest: string)
    ensures Ends(MembersThen(q, members, false, "}" + rest))
  {
  }

  lemma MembersHead(q: Quoter, members: seq<Member>, first: bool, rest: string)
    requires Faithful(q)
    ensures var text := MembersThen(q, members, first, "}" + rest);
            text != "" && (text[0] == '}' <==> members == [])
  {
    if members != [] {
      var t := MemberThen(q, members[0], MembersThen(q, members[1..], false, "}" + rest));
      MemberOpens(q, members[0], MembersThen(q, members[1..], false, "}" + rest));
      if first { assert Lead(first) + t == t; }
    }
  }

  lemma {:induction false} MembersUnique(q: Quoter, a: seq<Member>, b: seq<Member>, first: bool, x: string, y: string,
                                         v: Json, w: Json)
    requires Faithful(q) && (forall i :: 0 <= i < |a| ==> Numbers(a[i].value) && a[i] < v)
    requires forall i :: 0 <= i < |b| ==> Numbers(b[i].value)
    requires MembersThen(q, a, first, "}" + x) == MembersThen(q, b, first, "}" + y)
    ensures a == b && x == y
    decreases v, 0, |a|
  {
    MembersHead(q, a, first, x);
    MembersHead(q, b, first, y);
    if a == [] || b == [] {
      assert a == [] && b == [];
      Same('}', x, y);
    } else {
      var s, t := MembersThen(q, a[1..], false, "}" + x), MembersThen(q, b[1..], false, "}" + y);
      MembersOpen(q, a[1..], x);
      MembersOpen(q, b[1..], y);
      if first {
        assert Lead(true) + MemberThen(q, a[0], s) == MemberThen(q, a[0], s);
        assert Lead(true) + MemberThen(q, b[0], t) == MemberThen(q, b[0], t);
      } else {
        Same(',', MemberThen(q, a[0], s), MemberThen(q, b[0], t));
      }
      MemberUnique(q, a[0], b[0], s, t, v);
      MembersUnique(q, a[1..], b[1..], false, x, y, v, w);
      assert a == [a[0]] + a[1..] && b == [b[0]] + b[1..];
    }
  }

  lemma MemberOpens(q: Quoter, m: Member, rest: string)
    requires Faithful(q)
    ensures MemberThen(q, m, rest) != "" && MemberThen(q, m, rest)[0] == '"'
  {
    QuotedIsString(q, m.name);
  }

  lemma {:induction false} MemberUnique(q: Quoter, a: Member, b: Member, x: string, y: string, v: Json)
    requires Faithful(q) && Numbers(a.value) && Numbers(b.value) && a < v && Ends(x) && Ends(y)
    requires MemberThen(q, a, x) == MemberThen(q, b, y)
    ensures a == b && x == y
    decreases v, 0, 0
  {
    QuotedIsString(q, a.name);
    QuotedIsString(q, b.name);
    var s, t := TextThen(q, a.value, x), TextThen(q, b.value, y);
    LexemeUnique(Quoted(q, a.name), Quoted(q, b.name), ":" + s, ":" + t);
    Same(':', s, t);
    TextUnique(q, a.value, b.value, x, y);
  }

  /** Distinct values have distinct texts. */
  lemma DistinctTexts(q: Quoter, v: Json, w: Json)
    requires Faithful(q) && Numbers(v) && Numbers(w)
    ensures Text(q, v) == Text(q, w) <==> v == w
  {
    if Text(q, v) == Text(q, w) { TextUnique(q, v, w, "", ""); }
  }
}
