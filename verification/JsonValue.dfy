/** The values JSON holds, and the tokens codec/jsontoken.go hands them over as: no token stands for a
    comma or a colon, and an object is its opener, a key and a value for each member, and its closer. */
module JsonValue {

  datatype Json =
    | Null
    | Bool(b: bool)
    | Number(digits: string)
    | Str(text: string)
    | Arr(items: seq<Json>)
    | Obj(members: seq<Member>)

  datatype Member = Member(name: string, value: Json)

  datatype Token =
    | ObjectStart
    | ObjectEnd
    | ArrayStart
    | ArrayEnd
    | Key(name: string)
    | StringToken(text: string)
    | NumberToken(digits: string)
    | BoolToken(b: bool)
    | NullToken

  ghost function Tokens(v: Json): (toks: seq<Token>)
    ensures |toks| > 0
    decreases v
  {
    match v
    case Null => [NullToken]
    case Bool(b) => [BoolToken(b)]
    case Number(digits) => [NumberToken(digits)]
    case Str(text) => [StringToken(text)]
    case Arr(items) => [ArrayStart] + (ItemTokens(items) + [ArrayEnd])
    case Obj(members) => [ObjectStart] + (MemberTokens(members) + [ObjectEnd])
  }

  ghost function ItemTokens(items: seq<Json>): seq<Token>
    decreases items
  {
    if items == [] then [] else Tokens(items[0]) + ItemTokens(items[1..])
  }

  ghost function MemberTokens(members: seq<Member>): seq<Token>
    decreases members
  {
    if members == [] then [] else OneMember(members[0]) + MemberTokens(members[1..])
  }

  ghost function OneMember(m: Member): seq<Token>
    decreases m
  {
    [Key(m.name)] + Tokens(m.value)
  }

  predicate Opens(tok: Token) { tok.ObjectStart? || tok.ArrayStart? }

  predicate Closes(tok: Token) { tok.ObjectEnd? || tok.ArrayEnd? }

  /** Members added at the end add their tokens at the end. */
  lemma {:induction false} MemberTokensConcat(a: seq<Member>, b: seq<Member>)
    ensures MemberTokens(a + b) == MemberTokens(a) + MemberTokens(b)
  {
    if a == [] {
      assert a + b == b;
    } else {
      assert (a + b)[1..] == a[1..] + b;
      MemberTokensConcat(a[1..], b);
      var one, x, y := OneMember(a[0]), MemberTokens(a[1..]), MemberTokens(b);
      assert (one + x) + y == one + (x + y);
    }
  }

  lemma MemberTokensOne(m: Member)
    ensures MemberTokens([m]) == OneMember(m)
  {
    assert [m][1..] == [];
  }

  predicate Distinct(names: seq<string>) {
    forall i, j :: 0 <= i < j < |names| ==> names[i] != names[j]
  }

  function Names(members: seq<Member>): (names: seq<string>)
    ensures |names| == |members|
    ensures forall i :: 0 <= i < |members| ==> names[i] == members[i].name
  {
    if members == [] then [] else [members[0].name] + Names(members[1..])
  }

  /** No object anywhere in v names a member twice. */
  ghost predicate UniqueNames(v: Json)
    decreases v
  {
    match v
    case Arr(items) => forall i :: 0 <= i < |items| ==> UniqueNames(items[i])
    case Obj(members) =>
      Distinct(Names(members)) && forall i :: 0 <= i < |members| ==> UniqueNames(members[i].value)
    case _ => true
  }
}
