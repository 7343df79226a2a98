/** The parser's reader: a window over a run of tokens drawn as they are read (parser/context.go), against
    the whole run with a position in it. */
module TokenWindow {
  datatype Option<+T> = None | Some(value: T)

  datatype Token = Token(id: nat, comment: bool)

  /** A reader. rest is what the stream behind it has still to give, and nothing for a run in hand. */
  datatype State = State(
    idx: nat, cur: Option<Token>, held: bool, drained: bool,
    base: nat, tokens: seq<Token>, streaming: bool, rest: seq<Token>)

  /** A reader after a read, and the token read. */
  datatype Got = Got(s: State, tk: Option<Token>)

  // ---------------------------------------------------------------- the reader's steps

  /** The loop of draw: the stream read on while i lies past what is drawn. */
  ghost function Pulled(s: State, i: nat): (r: State)
    ensures r.idx == s.idx && r.base == s.base && |r.tokens| >= |s.tokens|
    decreases |s.rest|
  {
    if !s.streaming || s.drained || i < s.base + |s.tokens| then s
    else if s.rest == [] then s.(drained := true)
    else Pulled(s.(tokens := s.tokens + [s.rest[0]], rest := s.rest[1..]), i)
  }

  ghost function InWindow(s: State, i: nat): Option<Token> {
    if s.base <= i < s.base + |s.tokens| then Some(s.tokens[i - s.base]) else None
  }

  /** draw. */
  ghost function Drawn(s: State, i: nat): Got {
    var p := Pulled(s, i);
    var tk := InWindow(p, i);
    Got(if i == p.idx then p.(cur := tk, held := true) else p, tk)
  }

  /** at. */
  ghost function Read(s: State, i: nat): Got {
    if i == s.idx && s.held then Got(s, s.cur) else Drawn(s, i)
  }

  /** The loop of end. */
  ghost function Drained(s: State): (r: State)
    ensures r.idx == s.idx && r.base == s.base && |r.tokens| >= |s.tokens|
    decreases |s.rest|
  {
    if !s.streaming || s.drained then s
    else if s.rest == [] then s.(drained := true)
    else Drained(s.(tokens := s.tokens + [s.rest[0]], rest := s.rest[1..]))
  }

  /** forget, of a reader whose position is drawn up to. */
  ghost function Forgotten(s: State): (r: State)
    requires DrawnUpTo(s)
    ensures DrawnUpTo(r)
  {
    if !s.streaming || s.idx <= s.base then s
    else s.(tokens := s.tokens[s.idx - s.base..], base := s.idx)
  }

  /** A position drawn up to: nothing that is still to be read lies short of the window. */
  ghost predicate DrawnUpTo(s: State) {
    s.idx <= s.base + |s.tokens|
  }

  /** goNext, before it drops what is behind. */
  ghost function Moved(s: State): (r: State)
    ensures DrawnUpTo(r)
  {
    var Got(n, next) := Read(s, s.idx + 1);
    if next.None? then
      var e := Drained(n);
      e.(idx := e.base + |e.tokens|, cur := None, held := false)
    else
      n.(idx := n.idx + 1, cur := next, held := true)
  }

  /** goNext. */
  ghost function Advanced(s: State): (r: State)
    ensures DrawnUpTo(r)
  {
    Forgotten(Moved(s))
  }

  /** addToken. */
  ghost function Added(s: State, tk: Token): State {
    var e := Drained(s);
    e.(tokens := e.tokens + [tk])
  }

  // ---------------------------------------------------------------- the reader

  class TokenRef {
    var idx: nat
    var cur: Option<Token>
    var held: bool
    var drained: bool
    var base: nat
    var tokens: seq<Token>
    var streaming: bool
    var rest: seq<Token>

    /** tokenRefAt: a group's members, in hand. */
    constructor OfGroup(members: seq<Token>)
      ensures Now() == State(0, None, false, false, 0, members, false, [])
    {
      idx, cur, held, drained, base, tokens, streaming, rest := 0, None, false, false, 0, members, false, [];
    }

    /** tokenRefFrom: a stream drawn from. */
    constructor OfStream(stream: seq<Token>)
      ensures Now() == State(0, None, false, false, 0, [], true, stream)
    {
      idx, cur, held, drained, base, tokens, streaming, rest := 0, None, false, false, 0, [], true, stream;
    }

    ghost function Now(): State
      reads this
    {
      State(idx, cur, held, drained, base, tokens, streaming, rest)
    }

    method Pull() returns (tk: Option<Token>)
      modifies this`rest
      ensures old(rest) == [] ==> tk.None? && rest == []
      ensures old(rest) != [] ==> tk == Some(old(rest)[0]) && rest == old(rest)[1..]
    {
      if |rest| == 0 {
        return None;
      }
      tk, rest := Some(rest[0]), rest[1..];
    }

    method At(i: nat) returns (tk: Option<Token>)
      modifies this
      ensures Got(Now(), tk) == Read(old(Now()), i)
    {
      if i == idx && held {
        return cur;
      }
      tk := Draw(i);
    }

    method Draw(i: nat) returns (tk: Option<Token>)
      modifies this
      ensures Got(Now(), tk) == Drawn(old(Now()), i)
    {
      ghost var was := Now();
      while streaming && !drained && i >= base + |tokens|
        invariant Pulled(Now(), i) == Pulled(was, i) && idx == was.idx
        decreases |rest|, !drained
      {
        var next := Pull();
        if next.None? {
          drained := true;
          break;
        }
        tokens := tokens + [next.value];
      }
      tk := None;
      if i >= base && i - base < |tokens| {
        tk := Some(tokens[i - base]);
      }
      if i == idx {
        cur, held := tk, true;
      }
    }

    method Forget()
      requires DrawnUpTo(Now())
      modifies this
      ensures Now() == Forgotten(old(Now()))
    {
      if !streaming || idx <= base {
        return;
      }
      tokens, base := tokens[idx - base..], idx;
    }

    method End() returns (end: nat)
      modifies this
      ensures Now() == Drained(old(Now())) && end == base + |tokens|
    {
      ghost var was := Now();
      while streaming && !drained
        invariant Drained(Now()) == Drained(was)
        decreases |rest|, !drained
      {
        var next := Pull();
        if next.None? {
          drained := true;
          break;
        }
        tokens := tokens + [next.value];
      }
      end := base + |tokens|;
    }

    method GoNext()
      modifies this
      ensures Now() == Advanced(old(Now()))
    {
      Move();
      Forget();
    }

    method Move()
      modifies this
      ensures Now() == Moved(old(Now()))
    {
      var next := At(idx + 1);
      if next.None? {
        var end := End();
        idx, cur, held := end, None, false;
      } else {
        idx, cur, held := idx + 1, next, true;
      }
    }

    method AddToken(tk: Token)
      modifies this
      ensures Now() == Added(old(Now()), tk)
    {
      var end := End();
      tokens := tokens + [tk];
    }

    /** nextNotCommentToken: the first token past the position that is no comment. */
    method NextNotComment(ghost run: seq<Token>) returns (tk: Option<Token>)
      requires Windows(Now(), run)
      modifies this
      ensures Windows(Now(), run) && idx == old(idx) && (old(Fresh(Now(), run)) ==> Fresh(Now(), run))
      ensures tk == FirstNotComment(run, idx + 1)
    {
      var i := idx + 1;
      ghost var from := i;
      while true
        invariant from == idx + 1 <= i && idx == old(idx) && Windows(Now(), run) && i <= |run| + 1
        invariant old(Fresh(Now(), run)) ==> Fresh(Now(), run)
        invariant FirstNotComment(run, i) == FirstNotComment(run, from)
        decreases |run| + 1 - i
      {
        ReadRefines(Now(), run, i);
        tk := At(i);
        if tk.None? {
          return None;
        }
        if !tk.value.comment {
          return;
        }
        i := i + 1;
      }
    }
  }

  // ---------------------------------------------------------------- the whole run, indexed

  function AtIn(run: seq<Token>, i: nat): Option<Token> {
    if i < |run| then Some(run[i]) else None
  }

  function FirstNotComment(run: seq<Token>, i: nat): Option<Token>
    decreases |run| - i
  {
    if i >= |run| then None else if run[i].comment then FirstNotComment(run, i + 1) else Some(run[i])
  }

  /** The reader holds a window of the run that reaches back to its position, the stream behind it the
      rest. */
  ghost predicate Windows(s: State, run: seq<Token>) {
    && s.base <= s.idx <= |run|
    && s.tokens + s.rest == run[s.base..]
    && (!s.streaming || s.drained ==> s.rest == [])
  }

  /** The cached token is the one at the position. */
  ghost predicate Fresh(s: State, run: seq<Token>) {
    s.held ==> s.cur == AtIn(run, s.idx)
  }

  lemma {:induction false} PulledRefines(s: State, run: seq<Token>, i: nat)
    requires Windows(s, run)
    ensures var p := Pulled(s, i);
            && Windows(p, run) && p.idx == s.idx && p.cur == s.cur && p.held == s.held && p.base == s.base
            && p.streaming == s.streaming && |p.tokens| >= |s.tokens|
            && (i < p.base + |p.tokens| || p.rest == [])
    decreases |s.rest|
  {
    if s.streaming && !s.drained && i >= s.base + |s.tokens| && s.rest != [] {
      assert (s.tokens + [s.rest[0]]) + s.rest[1..] == s.tokens + s.rest;
      PulledRefines(s.(tokens := s.tokens + [s.rest[0]], rest := s.rest[1..]), run, i);
    }
  }

  lemma Indexed(s: State, run: seq<Token>, i: nat)
    requires Windows(s, run) && i >= s.base && (i < s.base + |s.tokens| || s.rest == [])
    ensures InWindow(s, i) == AtIn(run, i)
  {
    if i < s.base + |s.tokens| { assert run[s.base..][i - s.base] == (s.tokens + s.rest)[i - s.base]; }
    assert |run| == s.base + |s.tokens + s.rest|;
  }

  /** A read at or past the position gives the run's own token, or nothing past its end, and loses nothing. */
  lemma ReadRefines(s: State, run: seq<Token>, i: nat)
    requires Windows(s, run) && i >= s.idx
    ensures var Got(r, tk) := Read(s, i);
            && Windows(r, run) && r.idx == s.idx && r.streaming == s.streaming
            && (Fresh(s, run) ==> Fresh(r, run))
            && (i > s.idx || Fresh(s, run) ==> tk == AtIn(run, i))
  {
    PulledRefines(s, run, i);
    var p := Pulled(s, i);
    Indexed(p, run, i);
  }

  lemma {:induction false} DrainedRefines(s: State, run: seq<Token>)
    requires Windows(s, run)
    ensures var e := Drained(s);
            && Windows(e, run) && e.rest == [] && e.base + |e.tokens| == |run| && (e.streaming ==> e.drained)
            && e.idx == s.idx && e.cur == s.cur && e.held == s.held && e.base == s.base && e.streaming == s.streaming
    decreases |s.rest|
  {
    if s.streaming && !s.drained && s.rest != [] {
      assert (s.tokens + [s.rest[0]]) + s.rest[1..] == s.tokens + s.rest;
      DrainedRefines(s.(tokens := s.tokens + [s.rest[0]], rest := s.rest[1..]), run);
    }
  }

  lemma ForgottenRefines(s: State, run: seq<Token>)
    requires Windows(s, run) && DrawnUpTo(s)
    ensures var f := Forgotten(s);
            && Windows(f, run) && f.idx == s.idx && f.streaming == s.streaming && (Fresh(s, run) ==> Fresh(f, run))
            && (s.streaming ==> f.base == f.idx)
  {
    if s.streaming && s.idx > s.base {
      var d := s.idx - s.base;
      assert s.tokens[d..] + s.rest == (s.tokens + s.rest)[d..];
      assert run[s.base..][d..] == run[s.idx..];
    }
  }

  ghost function NextIn(run: seq<Token>, pos: nat): nat {
    if pos + 1 < |run| then pos + 1 else |run|
  }

  /** A reader moved on from pos, its cached token in step; on a stream nothing behind it is held. */
  ghost predicate MovedTo(r: State, run: seq<Token>, pos: nat, streaming: bool) {
    && Windows(r, run) && Fresh(r, run) && r.idx == NextIn(run, pos) && r.streaming == streaming
    && (streaming ==> r.base == r.idx)
  }

  /** A step past the position, or past the end, and what is behind dropped. */
  lemma StepForgotten(n: State, run: seq<Token>, m: State, f: State)
    requires Windows(n, run) && m == n.(idx := m.idx, cur := m.cur, held := m.held) && n.idx <= m.idx <= |run|
    requires DrawnUpTo(m) && f == Forgotten(m) && Fresh(m, run)
    ensures Windows(f, run) && Fresh(f, run) && f.idx == m.idx && f.streaming == n.streaming
            && (n.streaming ==> f.base == f.idx)
  {
    ForgottenRefines(m, run);
  }

  /** goNext moves to the next token of the run or past its end, with the cached token in step whatever it
      was before, and on a stream nothing behind the position is held. */
  lemma AdvancedRefines(s: State, run: seq<Token>, r: State)
    requires Windows(s, run) && r == Advanced(s)
    ensures MovedTo(r, run, s.idx, s.streaming)
  {
    ReadRefines(s, run, s.idx + 1);
    var Got(n, next) := Read(s, s.idx + 1);
    if next.None? {
      DrainedRefines(n, run);
      MovedPast(Drained(n), run, s, r);
    } else {
      StepForgotten(n, run, n.(idx := n.idx + 1, cur := next, held := true), r);
    }
  }

  /** Past the end, with the stream drawn dry. */
  lemma MovedPast(e: State, run: seq<Token>, s: State, r: State)
    requires Windows(e, run) && e.base + |e.tokens| == |run| && DrawnUpTo(e.(idx := |run|))
    requires e.idx == s.idx <= |run| <= s.idx + 1 && e.streaming == s.streaming
    requires r == Forgotten(e.(idx := |run|, cur := None, held := false))
    ensures MovedTo(r, run, s.idx, s.streaming)
  {
    StepForgotten(e, run, e.(idx := |run|, cur := None, held := false), r);
  }

  /** addToken puts its token behind the run; the cached token stays in step unless it was cached past the
      run's end, where the new token now stands. */
  lemma AddedRefines(s: State, run: seq<Token>, tk: Token)
    requires Windows(s, run) && Fresh(s, run)
    ensures var r := Added(s, tk);
            && Windows(r, run + [tk]) && r.idx == s.idx
            && (Fresh(r, run + [tk]) <==> !(s.held && s.idx == |run|))
  {
    DrainedRefines(s, run);
    var e := Drained(s);
    assert (run + [tk])[e.base..] == run[e.base..] + [tk];
    assert (e.tokens + [tk]) + [] == (e.tokens + e.rest) + [tk];
  }

  /** Standing at the end with that cached, a read at the position misses the token just added. */
  lemma AddedMissed(run: seq<Token>, tk: Token, s: State)
    requires Windows(s, run) && Fresh(s, run) && s.held && s.idx == |run|
    ensures Read(Added(s, tk), s.idx).tk.None? && AtIn(run + [tk], s.idx) == Some(tk)
  {
    DrainedRefines(s, run);
  }

  /** addNullValueToken, which adds a token and moves on, puts the cached token right again. */
  lemma AddedThenNext(s: State, run: seq<Token>, tk: Token)
    requires Windows(s, run) && Fresh(s, run)
    ensures var r := Advanced(Added(s, tk));
            && Windows(r, run + [tk]) && Fresh(r, run + [tk]) && r.idx == NextIn(run + [tk], s.idx)
  {
    AddedRefines(s, run, tk);
    AdvancedRefines(Added(s, tk), run + [tk], Advanced(Added(s, tk)));
  }

  // ---------------------------------------------------------------- whole runs of the parser

  /** What the descent asks of a reader: the token some way past the position, to move on, to drop what is
      behind, where the run ends, or to add a null and move past it. */
  datatype Op = Peek(ahead: nat) | Next | Drop | End | AddNull(tk: Token)

  datatype Answer = Seen(tk: Option<Token>) | Ends(at: nat) | Nothing

  ghost function StepOf(s: State, op: Op): (r: State)
    requires DrawnUpTo(s)
    ensures DrawnUpTo(r)
  {
    match op
    case Peek(ahead) => Read(s, s.idx + ahead).s
    case Next => Advanced(s)
    case Drop => Forgotten(s)
    case End => Drained(s)
    case AddNull(tk) => Advanced(Added(s, tk))
  }

  ghost function AnswerOf(s: State, op: Op): Answer {
    match op
    case Peek(ahead) => Seen(Read(s, s.idx + ahead).tk)
    case End => var e := Drained(s); Ends(e.base + |e.tokens|)
    case _ => Nothing
  }

  /** The same of the whole run and a position in it. */
  datatype Plain = Plain(run: seq<Token>, pos: nat)

  ghost function PlainStep(p: Plain, op: Op): Plain {
    match op
    case Next => p.(pos := NextIn(p.run, p.pos))
    case AddNull(tk) => Plain(p.run + [tk], NextIn(p.run + [tk], p.pos))
    case _ => p
  }

  ghost function PlainAnswer(p: Plain, op: Op): Answer {
    match op
    case Peek(ahead) => Seen(AtIn(p.run, p.pos + ahead))
    case End => Ends(|p.run|)
    case _ => Nothing
  }

  ghost function Answers(s: State, ops: seq<Op>): seq<Answer>
    requires DrawnUpTo(s)
    decreases |ops|
  {
    if ops == [] then [] else [AnswerOf(s, ops[0])] + Answers(StepOf(s, ops[0]), ops[1..])
  }

  ghost function PlainAnswers(p: Plain, ops: seq<Op>): seq<Answer>
    decreases |ops|
  {
    if ops == [] then [] else [PlainAnswer(p, ops[0])] + PlainAnswers(PlainStep(p, ops[0]), ops[1..])
  }

  ghost predicate Reads(s: State, p: Plain) {
    Windows(s, p.run) && Fresh(s, p.run) && s.idx == p.pos
  }

  lemma StepRefines(s: State, p: Plain, op: Op)
    requires Reads(s, p) && DrawnUpTo(s)
    ensures Reads(StepOf(s, op), PlainStep(p, op)) && AnswerOf(s, op) == PlainAnswer(p, op)
  {
    match op
    case Peek(ahead) => ReadRefines(s, p.run, s.idx + ahead);
    case Next => AdvancedRefines(s, p.run, Advanced(s));
    case Drop => ForgottenRefines(s, p.run);
    case End => DrainedRefines(s, p.run);
    case AddNull(tk) => AddedThenNext(s, p.run, tk);
  }

  /** Whatever the parser asks, and in whatever order, the windowed reader answers as the whole run would. */
  lemma {:induction false} RunRefines(s: State, p: Plain, ops: seq<Op>)
    requires Reads(s, p) && DrawnUpTo(s)
    ensures Answers(s, ops) == PlainAnswers(p, ops)
    decreases |ops|
  {
    if ops != [] {
      StepRefines(s, p, ops[0]);
      RunRefines(StepOf(s, ops[0]), PlainStep(p, ops[0]), ops[1..]);
    }
  }

  /** From the start of a group in hand or of a stream. */
  lemma ReaderRefines(run: seq<Token>, streaming: bool, ops: seq<Op>)
    ensures var s := if streaming then State(0, None, false, false, 0, [], true, run)
                     else State(0, None, false, false, 0, run, false, []);
            Answers(s, ops) == PlainAnswers(Plain(run, 0), ops)
  {
    var s := if streaming then State(0, None, false, false, 0, [], true, run)
             else State(0, None, false, false, 0, run, false, []);
    assert run[0..] == run && [] + run == run && run + [] == run;
    RunRefines(s, Plain(run, 0), ops);
  }
}
