/** Where a conversion stands (codec/jsontoken.go and step, fillSlot and wellFormed of
    codec/jsontokener.go): the depth, and the JSON pointer of RFC 6901 to the token in hand. */
module JsonPath {
  import opened JsonValue

  datatype Option<+T> = None | Some(value: T)

  /** One open collection: the member being read or the index of the element. */
  datatype Frame = Frame(key: string, index: nat, inArray: bool, named: bool, wantsKey: bool)

  datatype Place = Place(depth: int, frames: seq<Frame>)

  const START := Place(0, [])

  function Last(frames: seq<Frame>): Frame
    requires frames != []
  {
    frames[|frames| - 1]
  }

  function WithLast(frames: seq<Frame>, f: Frame): seq<Frame>
    requires frames != []
  {
    frames[|frames| - 1 := f]
  }

  /** fillSlot: the collection in hand has taken one more value. */
  function Filled(frames: seq<Frame>): seq<Frame> {
    if frames == [] then frames
    else
      var f := Last(frames);
      if !f.inArray then WithLast(frames, f.(wantsKey := true))
      else WithLast(frames, f.(index := if f.named then f.index + 1 else f.index, named := true))
  }

  /** step: the path and the depth moved onto a token. */
  function Stepped(p: Place, tok: Token): Place {
    if Closes(tok) then
      Place(p.depth - 1, if p.frames == [] then [] else p.frames[..|p.frames| - 1])
    else if tok.Key? then
      if p.frames == [] then p
      else p.(frames := WithLast(p.frames, Last(p.frames).(key := tok.name, named := true, wantsKey := false)))
    else
      var frames := Filled(p.frames);
      if Opens(tok) then
        Place(p.depth + 1, frames + [Frame("", 0, tok.ArrayStart?, false, tok.ObjectStart?)])
      else p.(frames := frames)
  }

  /** wellFormed: whether a token may stand where the conversion has reached. */
  predicate WellFormed(p: Place, tok: Token) {
    || p.frames == []
    || Last(p.frames).inArray
    || Closes(tok)
    || Last(p.frames).wantsKey == tok.Key?
  }

  function SteppedAll(p: Place, toks: seq<Token>): Place
    decreases |toks|
  {
    if toks == [] then p else SteppedAll(Stepped(p, toks[0]), toks[1..])
  }

  // ---------------------------------------------------------------- pointers

  function Digit(n: nat): char
    requires n < 10
  {
    ('0' as int + n) as char
  }

  /** strconv's decimal. */
  function Decimal(n: nat): (s: string)
    ensures s != "" && forall i :: 0 <= i < |s| ==> '0' <= s[i] <= '9'
  {
    if n < 10 then [Digit(n)] else Decimal(n / 10) + [Digit(n % 10)]
  }

  /** Section 3 of RFC 6901: "~" as "~0" and "/" as "~1". */
  function Escaped(s: string): string {
    if s == "" then ""
    else (if s[0] == '~' then "~0" else if s[0] == '/' then "~1" else [s[0]]) + Escaped(s[1..])
  }

  function PointerText(segments: seq<string>): string {
    if segments == [] then "" else "/" + (Escaped(segments[0]) + PointerText(segments[1..]))
  }

  /** The reference tokens of the open collections: an unnamed one writes none. */
  function Segments(frames: seq<Frame>): seq<string> {
    if frames == [] then []
    else
      Segments(frames[..|frames| - 1])
      + if !Last(frames).named then []
        else [if Last(frames).inArray then Decimal(Last(frames).index) else Last(frames).key]
  }

  // ---------------------------------------------------------------- the object the program keeps

  class JsonTokens {
    var depth: int
    var frames: seq<Frame>

    constructor ()
      ensures At() == START
    {
      depth, frames := 0, [];
    }

    ghost function At(): Place
      reads this
    {
      Place(depth, frames)
    }

    method FillSlot()
      modifies this`frames
      ensures frames == Filled(old(frames))
    {
      var n := |frames|;
      if n == 0 {
        return;
      }
      if !frames[n - 1].inArray {
        frames := frames[n - 1 := frames[n - 1].(wantsKey := true)];
        return;
      }
      if frames[n - 1].named {
        frames := frames[n - 1 := frames[n - 1].(index := frames[n - 1].index + 1)];
      }
      frames := frames[n - 1 := frames[n - 1].(named := true)];
    }

    method Step(tok: Token)
      modifies this
      ensures At() == Stepped(old(At()), tok)
    {
      if tok.ObjectEnd? || tok.ArrayEnd? {
        depth := depth - 1;
        if |frames| > 0 {
          frames := frames[..|frames| - 1];
        }
        return;
      }
      if tok.Key? {
        var n := |frames|;
        if n > 0 {
          frames := frames[n - 1 := frames[n - 1].(key := tok.name, named := true)];
          frames := frames[n - 1 := frames[n - 1].(wantsKey := false)];
        }
        return;
      }
      FillSlot();
      if tok.ObjectStart? || tok.ArrayStart? {
        depth := depth + 1;
        frames := frames + [Frame("", 0, tok.ArrayStart?, false, tok.ObjectStart?)];
      }
    }

    /** AppendPath: the pointer to the token just handed over. */
    method AppendPath(dst: string) returns (r: string)
      ensures r == dst + PointerText(Segments(frames))
    {
      r := dst;
      assert r + PointerText(Segments(frames[..0])) == r;
      for i := 0 to |frames|
        invariant r == dst + PointerText(Segments(frames[..i]))
      {
        var f := frames[i];
        ghost var done := Segments(frames[..i]);
        assert frames[..i + 1] == frames[..i] + [f];
        SegmentsPush(frames[..i], f);
        if !f.named {
          assert done + [] == done;
          continue;
        }
        r := r + "/";
        if f.inArray {
          PlainEscaped(Decimal(f.index));
          OneSegment(dst, done, Decimal(f.index));
          r := r + Decimal(f.index);
          continue;
        }
        OneSegment(dst, done, f.key);
        r := AppendPointerToken(r, f.key);
      }
      assert frames[..|frames|] == frames;
    }
  }

  lemma OneSegment(dst: string, segments: seq<string>, s: string)
    ensures dst + PointerText(segments + [s]) == dst + PointerText(segments) + "/" + Escaped(s)
  {
    PointerSnoc(segments, s);
    Assoc(dst, PointerText(segments), "/" + Escaped(s));
    Assoc(dst + PointerText(segments), "/", Escaped(s));
  }

  lemma Assoc(a: string, b: string, c: string)
    ensures (a + b) + c == a + (b + c)
  {
  }

  method AppendPointerToken(dst: string, s: string) returns (r: string)
    ensures r == dst + Escaped(s)
  {
    if '~' !in s && '/' !in s {
      PlainEscaped(s);
      return dst + s;
    }
    r := dst;
    for i := 0 to |s|
      invariant r + Escaped(s[i..]) == dst + Escaped(s)
    {
      assert s[i..][1..] == s[i + 1..];
      var part := if s[i] == '~' then "~0" else if s[i] == '/' then "~1" else [s[i]];
      Assoc(r, part, Escaped(s[i + 1..]));
      r := r + part;
    }
    assert r + "" == r;
  }

  /** Character by character, wherever the segment is cut: a "~" is written "~0", a "/" "~1", and every other as it
      is. */
  lemma {:induction false} EscapedByCode(a: string, b: string)
    ensures Escaped(a + b) == Escaped(a) + Escaped(b)
    ensures forall c :: Escaped([c]) == if c as int == 0x7e then "~0" else if c as int == 0x2f then "~1" else [c]
    decreases |a|
  {
    forall c ensures Escaped([c]) == if c as int == 0x7e then "~0" else if c as int == 0x2f then "~1" else [c] {
      assert [c][1..] == "";
    }
    if a == "" {
      assert a + b == b;
    } else {
      assert (a + b)[1..] == a[1..] + b;
      EscapedByCode(a[1..], b);
    }
  }

  lemma {:induction false} PlainEscaped(s: string)
    requires '~' !in s && '/' !in s
    ensures Escaped(s) == s
  {
    if s != "" { PlainEscaped(s[1..]); }
  }

  lemma {:induction false} PointerSnoc(segments: seq<string>, s: string)
    ensures PointerText(segments + [s]) == PointerText(segments) + ("/" + Escaped(s))
  {
    if segments == [] {
      assert [s][1..] == [];
      assert segments + [s] == [s];
      assert Escaped(s) + "" == Escaped(s);
    } else {
      var head, tail := segments[0], segments[1..];
      assert (segments + [s])[1..] == tail + [s];
      PointerSnoc(tail, s);
      Assoc(Escaped(head), PointerText(tail), "/" + Escaped(s));
      Assoc("/", Escaped(head) + PointerText(tail), "/" + Escaped(s));
    }
  }

  // ---------------------------------------------------------------- evaluation, section 4 of RFC 6901

  /** "first transforming any occurrence of the sequence '~1' to '/'" */
  function SlashesBack(s: string): string {
    if s == "" then ""
    else if |s| > 1 && s[0] == '~' && s[1] == '1' then "/" + SlashesBack(s[2..])
    else [s[0]] + SlashesBack(s[1..])
  }

  /** "and then transforming any occurrence of the sequence '~0' to '~'" */
  function TildesBack(s: string): string {
    if s == "" then ""
    else if |s| > 1 && s[0] == '~' && s[1] == '0' then "~" + TildesBack(s[2..])
    else [s[0]] + TildesBack(s[1..])
  }

  function Unescaped(s: string): string {
    TildesBack(SlashesBack(s))
  }

  function SlashAt(s: string): (i: nat)
    ensures i <= |s| && (forall j :: 0 <= j < i ==> s[j] != '/')
    ensures i < |s| ==> s[i] == '/'
  {
    if s == "" || s[0] == '/' then 0
    else SlashAt(s[1..]) + 1
  }

  /** The reference tokens a pointer holds, or None where it is not a pointer. */
  function Parsed(pointer: string): Option<seq<string>>
    decreases |pointer|
  {
    if pointer == "" then Some([])
    else if pointer[0] != '/' then None
    else
      var rest := pointer[1..];
      var cut := SlashAt(rest);
      var more := Parsed(rest[cut..]);
      if more.None? then None else Some([Unescaped(rest[..cut])] + more.value)
  }

  function Find(members: seq<Member>, name: string): Option<Json> {
    if members == [] then None
    else if members[0].name == name then Some(members[0].value)
    else Find(members[1..], name)
  }

  /** Digits with no leading zero, as a number. */
  function Index(s: string): Option<nat> {
    if s == "" || !(forall i :: 0 <= i < |s| ==> '0' <= s[i] <= '9') || (|s| > 1 && s[0] == '0') then None
    else Some(Digits(s))
  }

  function Digits(s: string): nat
    requires forall i :: 0 <= i < |s| ==> '0' <= s[i] <= '9'
  {
    if s == "" then 0 else 10 * Digits(s[..|s| - 1]) + ((s[|s| - 1] as int) - ('0' as int))
  }

  function Child(v: Json, segment: string): Option<Json> {
    match v
    case Obj(members) => Find(members, segment)
    case Arr(items) =>
      var i := Index(segment);
      if i.Some? && i.value < |items| then Some(items[i.value]) else None
    case _ => None
  }

  function Descend(v: Json, segments: seq<string>): Option<Json>
    decreases |segments|
  {
    if segments == [] then Some(v)
    else
      var child := Child(v, segments[0]);
      if child.None? then None else Descend(child.value, segments[1..])
  }

  function Evaluate(v: Json, pointer: string): Option<Json> {
    var segments := Parsed(pointer);
    if segments.None? then None else Descend(v, segments.value)
  }

  // ---------------------------------------------------------------- escaping is undone

  function TildesEscaped(s: string): string {
    if s == "" then "" else (if s[0] == '~' then "~0" else [s[0]]) + TildesEscaped(s[1..])
  }

  lemma {:induction false} SlashesUndone(s: string)
    ensures SlashesBack(Escaped(s)) == TildesEscaped(s)
  {
    if s != "" {
      SlashesUndone(s[1..]);
      var e := Escaped(s[1..]);
      if s[0] == '~' {
        assert ("~0" + e)[1..] == "0" + e && ("0" + e)[1..] == e;
        assert "~0" + TildesEscaped(s[1..]) == "~" + ("0" + TildesEscaped(s[1..]));
      } else if s[0] == '/' {
        assert ("~1" + e)[2..] == e;
      } else {
        assert ([s[0]] + e)[1..] == e;
      }
    }
  }

  lemma {:induction false} TildesUndone(s: string)
    ensures TildesBack(TildesEscaped(s)) == s
  {
    if s != "" {
      TildesUndone(s[1..]);
      var e := TildesEscaped(s[1..]);
      if s[0] == '~' {
        assert ("~0" + e)[2..] == e;
      } else {
        assert ([s[0]] + e)[1..] == e;
      }
    }
  }

  /** Section 4 undoes section 3 on every segment. */
  lemma EscapingUndone(s: string)
    ensures Unescaped(Escaped(s)) == s
  {
    SlashesUndone(s);
    TildesUndone(s);
  }

  lemma {:induction false} EscapedHasNoSlash(s: string)
    ensures '/' !in Escaped(s)
  {
    if s != "" { EscapedHasNoSlash(s[1..]); }
  }

  lemma {:induction false} SlashFound(a: string, rest: string)
    requires '/' !in a && (rest == "" || rest[0] == '/')
    ensures SlashAt(a + rest) == |a|
  {
    if a == "" {
      assert a + rest == rest;
    } else {
      assert (a + rest)[1..] == a[1..] + rest;
      assert (a + rest)[0] == a[0] && a[0] in a;
      SlashFound(a[1..], rest);
    }
  }

  /** A pointer written from segments is read back as those segments. */
  lemma {:induction false} PointerReadsBack(segments: seq<string>)
    ensures Parsed(PointerText(segments)) == Some(segments)
  {
    if segments != [] {
      var e, more := Escaped(segments[0]), PointerText(segments[1..]);
      var text := PointerText(segments);
      assert text[1..] == e + more;
      EscapedHasNoSlash(segments[0]);
      SlashFound(e, more);
      assert (e + more)[..|e|] == e && (e + more)[|e|..] == more;
      EscapingUndone(segments[0]);
      PointerReadsBack(segments[1..]);
      assert [segments[0]] + segments[1..] == segments;
    }
  }

  lemma {:induction false} DecimalReadsBack(n: nat)
    ensures Digits(Decimal(n)) == n
    ensures |Decimal(n)| > 1 ==> Decimal(n)[0] != '0'
    ensures n > 0 ==> Decimal(n)[0] != '0'
  {
    if n < 10 {
      var s := Decimal(n);
      assert s[..0] == "";
    } else {
      DecimalReadsBack(n / 10);
      var s := Decimal(n);
      assert s[..|s| - 1] == Decimal(n / 10);
    }
  }

  lemma {:induction false} DescendConcat(v: Json, a: seq<string>, s: string)
    requires Descend(v, a).Some?
    ensures Descend(v, a + [s]) == Child(Descend(v, a).value, s)
    decreases |a|
  {
    if a == [] {
      assert a + [s] == [s] && [s][1..] == [];
    } else {
      assert (a + [s])[1..] == a[1..] + [s];
      DescendConcat(Child(v, a[0]).value, a[1..], s);
    }
  }

  lemma {:induction false} FindDistinct(members: seq<Member>, i: nat)
    requires i < |members| && Distinct(Names(members))
    ensures Find(members, members[i].name) == Some(members[i].value)
  {
    var names := Names(members);
    if i > 0 {
      assert names[0] != names[i];
      forall j, k | 0 <= j < k < |members[1..]| ensures Names(members[1..])[j] != Names(members[1..])[k] {
        assert names[j + 1] != names[k + 1];
      }
      FindDistinct(members[1..], i - 1);
    }
  }

  // ---------------------------------------------------------------- the token and its value

  /** A token of a value's stream with the value it is, opens or closes, or the member it names. */
  datatype Mark = Mark(tok: Token, value: Json)

  ghost function Marked(v: Json): (marks: seq<Mark>)
    decreases v
  {
    match v
    case Arr(items) => [Mark(ArrayStart, v)] + (MarkedItems(items) + [Mark(ArrayEnd, v)])
    case Obj(members) => [Mark(ObjectStart, v)] + (MarkedMembers(members) + [Mark(ObjectEnd, v)])
    case _ => [Mark(Tokens(v)[0], v)]
  }

  ghost function MarkedItems(items: seq<Json>): seq<Mark>
    decreases items
  {
    if items == [] then [] else Marked(items[0]) + MarkedItems(items[1..])
  }

  ghost function MarkedMembers(members: seq<Member>): seq<Mark>
    decreases members
  {
    if members == [] then [] else MarkedMember(members[0]) + MarkedMembers(members[1..])
  }

  ghost function MarkedMember(m: Member): seq<Mark>
    decreases m
  {
    [Mark(Key(m.name), m.value)] + Marked(m.value)
  }

  ghost function Toks(marks: seq<Mark>): (toks: seq<Token>)
    ensures |toks| == |marks|
    ensures forall i :: 0 <= i < |marks| ==> toks[i] == marks[i].tok
  {
    if marks == [] then [] else [marks[0].tok] + Toks(marks[1..])
  }

  lemma {:induction false} ToksConcat(a: seq<Mark>, b: seq<Mark>)
    ensures Toks(a + b) == Toks(a) + Toks(b)
  {
  }

  lemma {:induction false} MarkedTokens(v: Json)
    ensures Toks(Marked(v)) == Tokens(v)
    decreases v, 1
  {
    match v
    case Arr(items) => MarkedItemTokens(items, v); ToksConcat(MarkedItems(items), [Mark(ArrayEnd, v)]);
    case Obj(members) => MarkedMemberTokens(members, v); ToksConcat(MarkedMembers(members), [Mark(ObjectEnd, v)]);
    case _ =>
  }

  lemma {:induction false} MarkedItemTokens(items: seq<Json>, whole: Json)
    requires forall i :: 0 <= i < |items| ==> items[i] < whole
    ensures Toks(MarkedItems(items)) == ItemTokens(items)
    decreases whole, 0, |items|
  {
    if items != [] {
      MarkedTokens(items[0]);
      MarkedItemTokens(items[1..], whole);
      ToksConcat(Marked(items[0]), MarkedItems(items[1..]));
    }
  }

  lemma {:induction false} MarkedMemberTokens(members: seq<Member>, whole: Json)
    requires forall i :: 0 <= i < |members| ==> members[i] < whole
    ensures Toks(MarkedMembers(members)) == MemberTokens(members)
    decreases whole, 0, |members|
  {
    if members != [] {
      var m := members[0];
      assert m.value < m;
      MarkedTokens(m.value);
      ToksConcat([Mark(Key(m.name), m.value)], Marked(m.value));
      MarkedMemberTokens(members[1..], whole);
      ToksConcat(MarkedMember(m), MarkedMembers(members[1..]));
    }
  }

  /** From p on, every token may stand where it does, and the path it moves to leads from root to the
      value the token is marked with. */
  ghost predicate Follows(root: Json, p: Place, marks: seq<Mark>)
    decreases |marks|
  {
    marks == [] ||
    var p' := Stepped(p, marks[0].tok);
    && WellFormed(p, marks[0].tok)
    && p'.depth == |p'.frames|
    && Descend(root, Segments(p'.frames)) == Some(marks[0].value)
    && Follows(root, p', marks[1..])
  }

  ghost function After(p: Place, marks: seq<Mark>): Place {
    SteppedAll(p, Toks(marks))
  }

  lemma {:induction false} FollowsConcat(root: Json, p: Place, a: seq<Mark>, b: seq<Mark>)
    ensures Follows(root, p, a + b) == (Follows(root, p, a) && Follows(root, After(p, a), b))
    ensures After(p, a + b) == After(After(p, a), b)
    decreases |a|
  {
    if a == [] {
      assert a + b == b;
    } else {
      assert (a + b)[1..] == a[1..] + b;
      FollowsConcat(root, Stepped(p, a[0].tok), a[1..], b);
    }
  }

  lemma AfterOne(p: Place, m: Mark)
    ensures After(p, [m]) == Stepped(p, m.tok)
  {
    var toks := Toks([m]);
    assert toks[0] == m.tok && toks[1..] == [];
    assert SteppedAll(Stepped(p, m.tok), toks[1..]) == Stepped(p, m.tok);
  }

  /** p waits for a value, and the slot it will fill is root's v. */
  ghost predicate Awaits(root: Json, p: Place, v: Json) {
    && p.depth == |p.frames|
    && (p.frames == [] || Last(p.frames).inArray || !Last(p.frames).wantsKey)
    && Descend(root, Segments(Filled(p.frames))) == Some(v)
  }

  /** The path to the newest collection is the path to where it stands, until it names something. */
  lemma SegmentsPush(frames: seq<Frame>, f: Frame)
    ensures Segments(frames + [f])
            == if f.named then Segments(frames) + [if f.inArray then Decimal(f.index) else f.key]
               else Segments(frames)
  {
    var all := frames + [f];
    assert all[..|all| - 1] == frames;
    assert Segments(frames) + [] == Segments(frames);
  }

  /** What a step makes of the newest frame, the ones under it left alone. */
  lemma NewestFrame(frames: seq<Frame>, f: Frame, name: string)
    ensures Filled(frames + [f])
            == frames + [if f.inArray then f.(index := if f.named then f.index + 1 else f.index, named := true)
                         else f.(wantsKey := true)]
    ensures Stepped(InFrame(frames, f), Key(name))
            == InFrame(frames, f.(key := name, named := true, wantsKey := false))
  {
    var all := frames + [f];
    assert Last(all) == f;
    assert forall g :: WithLast(all, g) == frames + [g];
  }

  /** A value's tokens fill the slot they are handed in and come back to it. */
  lemma {:induction false} ValueFollows(root: Json, p: Place, v: Json)
    requires UniqueNames(v) && Awaits(root, p, v)
    ensures Follows(root, p, Marked(v))
    ensures After(p, Marked(v)) == p.(frames := Filled(p.frames))
    decreases v, 1
  {
    match v
    case Arr(items) => ArrayFollows(root, p, v);
    case Obj(members) => ObjectFollows(root, p, v);
    case _ =>
      assert Marked(v) == [Mark(Tokens(v)[0], v)] && Marked(v)[1..] == [];
      AfterOne(p, Marked(v)[0]);
  }

  lemma {:induction false} ArrayFollows(root: Json, p: Place, v: Json)
    requires v.Arr? && UniqueNames(v) && Awaits(root, p, v)
    ensures Follows(root, p, Marked(v))
    ensures After(p, Marked(v)) == p.(frames := Filled(p.frames))
    decreases v, 0, |v.items| + 1
  {
    var f := Frame("", 0, true, false, false);
    SegmentsPush(Filled(p.frames), f);
    assert v.items[0..] == v.items;
    ItemsFollow(root, Filled(p.frames), f, v.items, 0, v);
    Collection(root, p, Mark(ArrayStart, v), f, MarkedItems(v.items), Mark(ArrayEnd, v));
  }

  lemma {:induction false} ObjectFollows(root: Json, p: Place, v: Json)
    requires v.Obj? && UniqueNames(v) && Awaits(root, p, v)
    ensures Follows(root, p, Marked(v))
    ensures After(p, Marked(v)) == p.(frames := Filled(p.frames))
    decreases v, 0, |v.members| + 1
  {
    var f := Frame("", 0, false, false, true);
    SegmentsPush(Filled(p.frames), f);
    assert v.members[0..] == v.members;
    MembersFollow(root, Filled(p.frames), f, v.members, 0, v);
    Collection(root, p, Mark(ObjectStart, v), f, MarkedMembers(v.members), Mark(ObjectEnd, v));
  }

  /** p stands in one collection opened in `slot`. */
  ghost predicate Inside(p: Place, slot: seq<Frame>) {
    p.depth == |slot| + 1 && |p.frames| == |slot| + 1 && p.frames[..|slot|] == slot
  }

  function InFrame(slot: seq<Frame>, f: Frame): Place {
    Place(|slot| + 1, slot + [f])
  }

  /** An opener, what the collection holds, and the closer. */
  lemma Collection(root: Json, p: Place, open: Mark, f: Frame, inner: seq<Mark>, close: Mark)
    requires Opens(open.tok) && Closes(close.tok) && open.value == close.value
    requires f == Frame("", 0, open.tok.ArrayStart?, false, open.tok.ObjectStart?)
    requires Awaits(root, p, open.value)
    requires Follows(root, InFrame(Filled(p.frames), f), inner)
    requires Inside(After(InFrame(Filled(p.frames), f), inner), Filled(p.frames))
    ensures Follows(root, p, [open] + (inner + [close]))
    ensures After(p, [open] + (inner + [close])) == p.(frames := Filled(p.frames))
  {
    var slot := Filled(p.frames);
    var p1 := InFrame(slot, f);
    var p2 := After(p1, inner);
    SegmentsPush(slot, f);
    assert Stepped(p, open.tok) == p1;
    OneFollows(root, p, open);
    FollowsConcat(root, p, [open], inner + [close]);
    FollowsConcat(root, p1, inner, [close]);
    assert Stepped(p2, close.tok) == p.(frames := slot);
    OneFollows(root, p2, close);
  }

  lemma OneFollows(root: Json, p: Place, m: Mark)
    requires WellFormed(p, m.tok)
    requires Stepped(p, m.tok).depth == |Stepped(p, m.tok).frames|
    requires Descend(root, Segments(Stepped(p, m.tok).frames)) == Some(m.value)
    ensures Follows(root, p, [m])
    ensures After(p, [m]) == Stepped(p, m.tok)
  {
    AfterOne(p, m);
    assert [m][1..] == [];
  }

  /** The i'th item and on, in the array's own frame. */
  lemma {:induction false} ItemsFollow(root: Json, slot: seq<Frame>, f: Frame, items: seq<Json>, i: nat, whole: Json)
    requires whole.Arr? && i <= |whole.items| && items == whole.items[i..]
    requires UniqueNames(whole)
    requires f.inArray && (if i == 0 then !f.named && f.index == 0 else f.named && f.index == i - 1)
    requires Descend(root, Segments(slot)) == Some(whole)
    ensures Follows(root, InFrame(slot, f), MarkedItems(items))
    ensures Inside(After(InFrame(slot, f), MarkedItems(items)), slot)
    decreases whole, 0, |items|
  {
    if items != [] {
      var p, v := InFrame(slot, f), items[0];
      var g := f.(index := i, named := true);
      ItemSlot(root, slot, f, g, i, whole);
      assert v == whole.items[i] && v < whole;
      ValueFollows(root, p, v);
      assert items[1..] == whole.items[i + 1..];
      ItemsFollow(root, slot, g, items[1..], i + 1, whole);
      FollowsConcat(root, p, Marked(v), MarkedItems(items[1..]));
    }
  }

  lemma ItemSlot(root: Json, slot: seq<Frame>, f: Frame, g: Frame, i: nat, whole: Json)
    requires whole.Arr? && i < |whole.items| && Descend(root, Segments(slot)) == Some(whole)
    requires f.inArray && (if i == 0 then !f.named && f.index == 0 else f.named && f.index == i - 1)
    requires g == f.(index := i, named := true)
    ensures Filled(slot + [f]) == slot + [g]
    ensures Awaits(root, InFrame(slot, f), whole.items[i])
  {
    NewestFrame(slot, f, "");
    SegmentsPush(slot, g);
    DescendConcat(root, Segments(slot), Decimal(i));
    DecimalReadsBack(i);
  }

  /** The i'th member and on, in the object's own frame. */
  lemma {:induction false} MembersFollow(root: Json, slot: seq<Frame>, f: Frame, members: seq<Member>, i: nat,
                                         whole: Json)
    requires whole.Obj? && i <= |whole.members| && members == whole.members[i..]
    requires UniqueNames(whole)
    requires !f.inArray && f.wantsKey
    requires Descend(root, Segments(slot)) == Some(whole)
    ensures Follows(root, InFrame(slot, f), MarkedMembers(members))
    ensures Inside(After(InFrame(slot, f), MarkedMembers(members)), slot)
    decreases whole, 0, |members|
  {
    if members != [] {
      var m := members[0];
      assert m == whole.members[i] && m < whole && m.value < m;
      MemberFollows(root, slot, f, m, i, whole);
      assert members[1..] == whole.members[i + 1..];
      MembersFollow(root, slot, f.(key := m.name, named := true), members[1..], i + 1, whole);
      FollowsConcat(root, InFrame(slot, f), MarkedMember(m), MarkedMembers(members[1..]));
    }
  }

  lemma {:induction false} MemberFollows(root: Json, slot: seq<Frame>, f: Frame, m: Member, i: nat, whole: Json)
    requires whole.Obj? && i < |whole.members| && m == whole.members[i] && m.value < whole
    requires UniqueNames(whole)
    requires !f.inArray && f.wantsKey
    requires Descend(root, Segments(slot)) == Some(whole)
    ensures Follows(root, InFrame(slot, f), MarkedMember(m))
    ensures After(InFrame(slot, f), MarkedMember(m)) == InFrame(slot, f.(key := m.name, named := true))
    decreases whole, 0, 0
  {
    var g := f.(key := m.name, named := true, wantsKey := false);
    var key := Mark(Key(m.name), m.value);
    MemberSlot(root, slot, f, g, i, whole);
    OneFollows(root, InFrame(slot, f), key);
    ValueFollows(root, InFrame(slot, g), m.value);
    FollowsConcat(root, InFrame(slot, f), [key], Marked(m.value));
  }

  lemma MemberSlot(root: Json, slot: seq<Frame>, f: Frame, g: Frame, i: nat, whole: Json)
    requires whole.Obj? && i < |whole.members| && UniqueNames(whole)
    requires !f.inArray && f.wantsKey
    requires g == f.(key := whole.members[i].name, named := true, wantsKey := false)
    requires Descend(root, Segments(slot)) == Some(whole)
    ensures Stepped(InFrame(slot, f), Key(whole.members[i].name)) == InFrame(slot, g)
    ensures Descend(root, Segments(slot + [g])) == Some(whole.members[i].value)
    ensures Filled(slot + [g]) == slot + [g.(wantsKey := true)]
    ensures Awaits(root, InFrame(slot, g), whole.members[i].value)
  {
    var g' := g.(wantsKey := true);
    NewestFrame(slot, f, whole.members[i].name);
    NewestFrame(slot, g, "");
    SegmentsPush(slot, g);
    SegmentsPush(slot, g');
    DescendConcat(root, Segments(slot), whole.members[i].name);
    FindDistinct(whole.members, i);
  }

  // ---------------------------------------------------------------- the results

  /** The collections open after a stretch of tokens: openers less closers. */
  function Open(toks: seq<Token>): int {
    if toks == [] then 0
    else Open(toks[..|toks| - 1])
         + if Opens(toks[|toks| - 1]) then 1 else if Closes(toks[|toks| - 1]) then -1 else 0
  }

  lemma {:induction false} DepthIsOpen(p: Place, toks: seq<Token>)
    ensures SteppedAll(p, toks).depth == p.depth + Open(toks)
    decreases |toks|
  {
    if toks != [] {
      var n := |toks| - 1;
      SteppedSnoc(p, toks[..n], toks[n]);
      assert toks[..n] + [toks[n]] == toks;
      DepthIsOpen(p, toks[..n]);
    }
  }

  lemma {:induction false} SteppedSnoc(p: Place, toks: seq<Token>, tok: Token)
    ensures SteppedAll(p, toks + [tok]) == Stepped(SteppedAll(p, toks), tok)
    decreases |toks|
  {
    if toks == [] {
      assert toks + [tok] == [tok] && [tok][1..] == [];
    } else {
      assert (toks + [tok])[1..] == toks[1..] + [tok];
      SteppedSnoc(Stepped(p, toks[0]), toks[1..], tok);
    }
  }

  lemma FirstStep(p: Place, toks: seq<Token>, i: nat)
    requires 0 < i <= |toks|
    ensures SteppedAll(p, toks[..i]) == SteppedAll(Stepped(p, toks[0]), toks[1..][..i - 1])
  {
    assert toks[..i][1..] == toks[1..][..i - 1];
  }

  /** Where the conversion stands once it has taken token i, and what it leads to there. */
  ghost predicate LeadsTo(root: Json, before: Place, after: Place, m: Mark) {
    && WellFormed(before, m.tok)
    && after.depth == |after.frames|
    && Descend(root, Segments(after.frames)) == Some(m.value)
  }

  lemma {:induction false} FollowsAt(root: Json, p: Place, marks: seq<Mark>, i: nat)
    requires i < |marks| && Follows(root, p, marks)
    ensures LeadsTo(root, SteppedAll(p, Toks(marks)[..i]), SteppedAll(p, Toks(marks)[..i + 1]), marks[i])
    decreases i
  {
    var toks := Toks(marks);
    FirstStep(p, toks, i + 1);
    if i == 0 {
      assert toks[..0] == [] && toks[1..][..0] == [];
    } else {
      FirstStep(p, toks, i);
      FollowsAt(root, Stepped(p, toks[0]), marks[1..], i - 1);
      assert Toks(marks[1..]) == toks[1..];
    }
  }

  /** At every token of a value's stream: the token may stand there, the depth counts the collections
      open after it, and the pointer evaluates, against the value, to what the token is, opens or
      closes, or to the member the key names. */
  lemma PathLeadsToValue(v: Json, i: nat)
    requires UniqueNames(v) && i < |Tokens(v)|
    ensures |Marked(v)| == |Tokens(v)| && Marked(v)[i].tok == Tokens(v)[i]
    ensures var at := SteppedAll(START, Tokens(v)[..i + 1]);
            && WellFormed(SteppedAll(START, Tokens(v)[..i]), Tokens(v)[i])
            && at.depth == Open(Tokens(v)[..i + 1])
            && Evaluate(v, PointerText(Segments(at.frames))) == Some(Marked(v)[i].value)
  {
    MarkedTokens(v);
    ValueFollows(v, START, v);
    FollowsAt(v, START, Marked(v), i);
    DepthIsOpen(START, Tokens(v)[..i + 1]);
    PointerReadsBack(Segments(SteppedAll(START, Tokens(v)[..i + 1]).frames));
  }

  /** A whole value handed over leaves the conversion as deep as it found it, wherever it stands. */
  lemma DepthRestored(root: Json, p: Place, v: Json)
    requires UniqueNames(v) && Awaits(root, p, v)
    ensures SteppedAll(p, Tokens(v)).depth == p.depth
    ensures SteppedAll(p, Tokens(v)).frames == Filled(p.frames)
  {
    MarkedTokens(v);
    ValueFollows(root, p, v);
  }
}
