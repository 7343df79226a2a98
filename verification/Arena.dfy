/** The node arena (ast/arena.go). `ArenaModel` says what it is as a machine over counters and proves
    what holds over every run; `Arena` is the program's own form, chunks and slices of them, proved to
    step as the machine does. */
module ArenaModel {

  const MIN_NODE_BLOCK := 16
  const MAX_NODE_BLOCK := 512

  function BlockSize(n: int): (size: nat)
    ensures if n < 64 then size == 16 else if n >= 2048 then size == 512 else 4 * size <= n < 4 * size + 4
  {
    if n / 4 < MIN_NODE_BLOCK then MIN_NODE_BLOCK
    else if n / 4 > MAX_NODE_BLOCK then MAX_NODE_BLOCK
    else n / 4
  }

  /** Each block's position, as cells handed out and not given back, and the cells it has allocated;
      the positions marked, innermost last; the size of the next chunk. */
  datatype State = State(used: seq<nat>, capacity: seq<nat>, marks: seq<seq<nat>>, size: nat)

  datatype Op = Alloc(kind: nat) | Push | Pop | Commit | Reset(n: int)

  predicate WellFormed(s: State) {
    && |s.capacity| == |s.used|
    && (forall k :: 0 <= k < |s.used| ==> s.used[k] <= s.capacity[k])
    && (forall i :: 0 <= i < |s.marks| ==> |s.marks[i]| == |s.used|)
    && s.size > 0
  }

  function Max(a: nat, b: nat): nat { if a < b then b else a }

  function Raised(mark: seq<nat>, here: seq<nat>): (r: seq<nat>)
    requires |mark| == |here|
    ensures |r| == |mark|
    ensures forall k :: 0 <= k < |mark| ==> r[k] == Max(mark[k], here[k])
  {
    seq(|mark|, k requires 0 <= k < |mark| => Max(mark[k], here[k]))
  }

  predicate Possible(s: State, op: Op) {
    op.Alloc? ==> op.kind < |s.used|
  }

  function Zeros(n: nat): (r: seq<nat>)
    ensures |r| == n && forall k :: 0 <= k < n ==> r[k] == 0
  {
    seq(n, _ => 0)
  }

  function RaisedAll(marks: seq<seq<nat>>, here: seq<nat>): (r: seq<seq<nat>>)
    requires forall i :: 0 <= i < |marks| ==> |marks[i]| == |here|
    ensures |r| == |marks|
    ensures forall i :: 0 <= i < |marks| ==> r[i] == Raised(marks[i], here)
  {
    seq(|marks|, i requires 0 <= i < |marks| => Raised(marks[i], here))
  }

  function Step(s: State, op: Op): (s': State)
    requires WellFormed(s) && Possible(s, op)
    ensures WellFormed(s') && |s'.used| == |s.used|
  {
    match op
    case Alloc(k) =>
      s.(used := s.used[k := s.used[k] + 1],
         capacity := if s.used[k] == s.capacity[k] then s.capacity[k := s.capacity[k] + s.size] else s.capacity)
    case Push => s.(marks := s.marks + [s.used])
    case Pop =>
      if s.marks == [] then s
      else
        var m := s.marks[|s.marks| - 1];
        s.(marks := s.marks[..|s.marks| - 1], used := Lower(s, m))
    case Commit => s.(marks := RaisedAll(s.marks, s.used))
    case Reset(n) => s.(used := Zeros(|s.used|), marks := [], size := BlockSize(n))
  }

  /** Where a rewind leaves the positions. A mark never lies past what a block has allocated. */
  function Lower(s: State, m: seq<nat>): (r: seq<nat>)
    requires WellFormed(s) && |m| == |s.used|
    ensures |r| == |m| && forall k :: 0 <= k < |m| ==> r[k] <= s.capacity[k] && (m[k] <= s.capacity[k] ==> r[k] == m[k])
  {
    seq(|m|, k requires 0 <= k < |m| => if m[k] <= s.capacity[k] then m[k] else s.capacity[k])
  }

  /** The marks climb towards the position, in every block. */
  predicate Monotone(s: State) {
    && WellFormed(s)
    && (forall i, k :: 0 <= i < |s.marks| && 0 <= k < |s.used| ==> s.marks[i][k] <= s.used[k])
    && (forall i, j, k :: 0 <= i < j < |s.marks| && 0 <= k < |s.used| ==> s.marks[i][k] <= s.marks[j][k])
  }

  /** In a run the mark popped is where the machine ends up. */
  lemma PopLowers(s: State)
    requires Monotone(s) && s.marks != []
    ensures Step(s, Pop).used == s.marks[|s.marks| - 1]
  {
    var m := s.marks[|s.marks| - 1];
    assert forall k :: 0 <= k < |m| ==> m[k] <= s.used[k] <= s.capacity[k];
  }

  lemma MonotoneKept(s: State, op: Op)
    requires Monotone(s) && Possible(s, op)
    ensures Monotone(Step(s, op))
  {
  }

  // ---------------------------------------------------------------- runs

  predicate PossibleRun(s: State, ops: seq<Op>) {
    forall i :: 0 <= i < |ops| ==> Possible(s, ops[i])
  }

  /** Where the machine stands before the i'th of the operations. */
  function At(s: State, ops: seq<Op>, i: nat): (s': State)
    requires WellFormed(s) && PossibleRun(s, ops) && i <= |ops|
    ensures WellFormed(s') && |s'.used| == |s.used|
  {
    if i == 0 then s else Step(At(s, ops, i - 1), ops[i - 1])
  }

  function Fresh(kinds: nat, size: nat): (s: State)
    requires size > 0
    ensures Monotone(s)
  {
    State(Zeros(kinds), Zeros(kinds), [], size)
  }

  lemma {:induction false} MonotoneAlways(s: State, ops: seq<Op>, i: nat)
    requires Monotone(s) && PossibleRun(s, ops) && i <= |ops|
    ensures Monotone(At(s, ops, i))
  {
    if i > 0 {
      MonotoneAlways(s, ops, i - 1);
      MonotoneKept(At(s, ops, i - 1), ops[i - 1]);
    }
  }

  /** The cell a request hands out: the one the block's position names. */
  function Handed(s: State, ops: seq<Op>, i: nat): nat
    requires WellFormed(s) && PossibleRun(s, ops) && i < |ops| && ops[i].Alloc?
  {
    At(s, ops, i).used[ops[i].kind]
  }

  /** The i'th operation gives cell c of a block back. */
  predicate GivesBack(s: State, ops: seq<Op>, i: nat, kind: nat, c: nat)
    requires WellFormed(s) && PossibleRun(s, ops) && i < |ops| && kind < |s.used|
  {
    var at := At(s, ops, i);
    ops[i].Reset? || (ops[i].Pop? && at.marks != [] && at.marks[|at.marks| - 1][kind] <= c)
  }

  lemma {:induction false} HeldAbove(s: State, ops: seq<Op>, i: nat, j: nat, kind: nat, c: nat)
    requires Monotone(s) && PossibleRun(s, ops) && i <= j <= |ops| && kind < |s.used|
    requires At(s, ops, i).used[kind] > c
    requires forall t :: i <= t < j ==> !GivesBack(s, ops, t, kind, c)
    ensures At(s, ops, j).used[kind] > c
    decreases j
  {
    if i < j {
      HeldAbove(s, ops, i, j - 1, kind, c);
      assert !GivesBack(s, ops, j - 1, kind, c);
      HeldOneMore(s, ops, j - 1, kind, c);
    }
  }

  lemma HeldOneMore(s: State, ops: seq<Op>, t: nat, kind: nat, c: nat)
    requires Monotone(s) && PossibleRun(s, ops) && t < |ops| && kind < |s.used|
    requires At(s, ops, t).used[kind] > c && !GivesBack(s, ops, t, kind, c)
    ensures At(s, ops, t + 1).used[kind] > c
  {
    MonotoneAlways(s, ops, t);
    StepHolds(At(s, ops, t), ops[t], kind, c);
  }

  /** A position above c stays there unless it is reset, or popped to a mark that is not. */
  lemma StepHolds(s: State, op: Op, kind: nat, c: nat)
    requires Monotone(s) && Possible(s, op) && kind < |s.used| && s.used[kind] > c && !op.Reset?
    requires op.Pop? && s.marks != [] ==> s.marks[|s.marks| - 1][kind] > c
    ensures Step(s, op).used[kind] > c
  {
    if op.Pop? && s.marks != [] { PopLowers(s); }
  }

  /** No cell is handed out twice while it is live: between two requests that get one cell stands an
      operation that gave it back. */
  lemma NoCellTwice(s: State, ops: seq<Op>, i: nat, j: nat)
    requires Monotone(s) && PossibleRun(s, ops) && i < j < |ops|
    requires ops[i].Alloc? && ops[j].Alloc? && ops[i].kind == ops[j].kind
    requires Handed(s, ops, i) == Handed(s, ops, j)
    ensures exists t :: i < t < j && GivesBack(s, ops, t, ops[i].kind, Handed(s, ops, i))
  {
    var kind, c := ops[i].kind, Handed(s, ops, i);
    if forall t :: i < t < j ==> !GivesBack(s, ops, t, kind, c) {
      HeldAbove(s, ops, i + 1, j, kind, c);
    }
  }

  /** n cells of a block are pinned: neither the position nor any mark lies below them. */
  predicate Pinned(s: State, kind: nat, n: nat)
    requires WellFormed(s) && kind < |s.used|
  {
    s.used[kind] >= n && forall i :: 0 <= i < |s.marks| ==> s.marks[i][kind] >= n
  }

  lemma {:induction false} PinnedUntilReset(s: State, ops: seq<Op>, i: nat, j: nat, kind: nat, n: nat)
    requires Monotone(s) && PossibleRun(s, ops) && i <= j <= |ops| && kind < |s.used|
    requires Pinned(At(s, ops, i), kind, n)
    requires forall t :: i <= t < j ==> !ops[t].Reset?
    ensures Pinned(At(s, ops, j), kind, n)
    decreases j
  {
    if i < j {
      PinnedUntilReset(s, ops, i, j - 1, kind, n);
      MonotoneAlways(s, ops, j - 1);
      PinnedKept(At(s, ops, j - 1), ops[j - 1], kind, n);
    }
  }

  lemma PinnedKept(s: State, op: Op, kind: nat, n: nat)
    requires Monotone(s) && Possible(s, op) && kind < |s.used| && !op.Reset? && Pinned(s, kind, n)
    ensures Pinned(Step(s, op), kind, n)
  {
    if op.Pop? && s.marks != [] { PopLowers(s); }
  }

  /** A cell handed out before a Commit is not handed out again until a Reset. */
  lemma CommittedCellKept(s: State, ops: seq<Op>, i: nat, commit: nat, j: nat)
    requires Monotone(s) && PossibleRun(s, ops) && i < commit < j < |ops|
    requires ops[i].Alloc? && ops[commit].Commit? && ops[j].Alloc? && ops[i].kind == ops[j].kind
    requires forall t :: i < t < commit ==> !GivesBack(s, ops, t, ops[i].kind, Handed(s, ops, i))
    requires forall t :: commit < t < j ==> !ops[t].Reset?
    ensures Handed(s, ops, j) != Handed(s, ops, i)
  {
    var kind, c := ops[i].kind, Handed(s, ops, i);
    HeldAbove(s, ops, i + 1, commit, kind, c);
    var at := At(s, ops, commit);
    var at' := At(s, ops, commit + 1);
    assert forall m :: 0 <= m < |at'.marks| ==> at'.marks[m] == Raised(at.marks[m], at.used);
    PinnedUntilReset(s, ops, commit + 1, j, kind, c + 1);
  }

  /** The most cells a block has had in use at once. */
  function Peak(s: State, ops: seq<Op>, i: nat, kind: nat): (n: nat)
    requires WellFormed(s) && PossibleRun(s, ops) && i <= |ops| && kind < |s.used|
  {
    var now := At(s, ops, i).used[kind];
    if i == 0 then now else Max(now, Peak(s, ops, i - 1, kind))
  }

  /** The size of the chunk a block allocated last, 0 where it has allocated none. */
  function LastChunk(s: State, ops: seq<Op>, i: nat, kind: nat): (n: nat)
    requires WellFormed(s) && PossibleRun(s, ops) && i <= |ops| && kind < |s.used|
  {
    if i == 0 then 0
    else
      var at := At(s, ops, i - 1);
      if ops[i - 1] == Alloc(kind) && at.used[kind] == at.capacity[kind] then at.size
      else LastChunk(s, ops, i - 1, kind)
  }

  /** Less than the chunk a block allocated last lies past the most it has had in use. */
  predicate Spare(s: State, kind: nat, peak: nat, last: nat)
    requires WellFormed(s) && kind < |s.used|
  {
    && s.used[kind] <= peak <= s.capacity[kind]
    && (s.capacity[kind] == 0 || s.capacity[kind] < peak + last)
  }

  lemma SpareKept(s: State, op: Op, kind: nat, peak: nat, last: nat)
    requires Monotone(s) && Possible(s, op) && kind < |s.used| && Spare(s, kind, peak, last)
    ensures Spare(Step(s, op), kind, Max(Step(s, op).used[kind], peak),
                  if op == Alloc(kind) && s.used[kind] == s.capacity[kind] then s.size else last)
  {
    if op.Pop? && s.marks != [] {
      assert s.marks[|s.marks| - 1][kind] <= s.used[kind];
    }
  }

  /** What a block has allocated is never a whole chunk, of the size of its own last one, more than what
      it once had in use. */
  lemma {:induction false} NoChunkToSpare(kinds: nat, size: nat, ops: seq<Op>, i: nat, kind: nat)
    requires size > 0 && kind < kinds && PossibleRun(Fresh(kinds, size), ops) && i <= |ops|
    ensures Spare(At(Fresh(kinds, size), ops, i), kind, Peak(Fresh(kinds, size), ops, i, kind),
                  LastChunk(Fresh(kinds, size), ops, i, kind))
  {
    if i > 0 {
      var s := Fresh(kinds, size);
      NoChunkToSpare(kinds, size, ops, i - 1, kind);
      MonotoneAlways(s, ops, i - 1);
      SpareKept(At(s, ops, i - 1), ops[i - 1], kind, Peak(s, ops, i - 1, kind), LastChunk(s, ops, i - 1, kind));
    }
  }
}

module Arena {
  import opened ArenaModel

  const KINDS := 9

  /** The cells of the first n chunks. */
  ghost function Sum(lens: seq<nat>, n: nat): nat
    requires n <= |lens|
  {
    if n == 0 then 0 else Sum(lens, n - 1) + lens[n - 1]
  }

  lemma {:induction false} SumPrefix(lens: seq<nat>, more: seq<nat>, n: nat)
    requires n <= |lens|
    ensures Sum(lens + more, n) == Sum(lens, n)
  {
    if n > 0 { SumPrefix(lens, more, n - 1); }
  }

  lemma {:induction false} SumMonotone(lens: seq<nat>, m: nat, n: nat)
    requires m <= n <= |lens|
    ensures Sum(lens, m) <= Sum(lens, n)
    ensures m < n ==> Sum(lens, m) + lens[m] <= Sum(lens, n)
  {
    if m < n { SumMonotone(lens, m, n - 1); }
  }

  /** Where a block stood. */
  datatype BlockMark = BlockMark(at: nat, used: nat)

  ghost predicate MarkIn(lens: seq<nat>, m: BlockMark) {
    if m.at < |lens| then m.used <= lens[m.at] else m.at == 0 && m.used == 0
  }

  /** A mark as a count of cells. */
  ghost function Position(lens: seq<nat>, m: BlockMark): nat {
    if m.at < |lens| then Sum(lens, m.at) + m.used else 0
  }

  function LaterMark(a: BlockMark, b: BlockMark): BlockMark {
    if b.at > a.at || (b.at == a.at && b.used > a.used) then b else a
  }

  /** Of two marks the later is the one that counts more cells. */
  lemma LaterMarkIsMax(lens: seq<nat>, a: BlockMark, b: BlockMark)
    requires MarkIn(lens, a) && MarkIn(lens, b)
    ensures MarkIn(lens, LaterMark(a, b))
    ensures Position(lens, LaterMark(a, b)) == Max(Position(lens, a), Position(lens, b))
  {
    if a.at < b.at { SumMonotone(lens, a.at, b.at); }
    if b.at < a.at { SumMonotone(lens, b.at, a.at); }
  }

  lemma MarkStays(lens: seq<nat>, more: seq<nat>, m: BlockMark)
    requires MarkIn(lens, m)
    ensures MarkIn(lens + more, m) && Position(lens + more, m) == Position(lens, m)
  {
    if m.at < |lens| {
      SumPrefix(lens, more, m.at);
    } else if more != [] {
      assert Sum(lens + more, 0) == 0;
    }
  }

  /** Cells of one type, handed out from an allocation at a time. A cell is named by its chunk and its
      place in it; `off` is where the rest of the chunk in hand begins. */
  class Block<T> {
    const zero: T
    var chunks: seq<seq<T>>
    var at: nat
    var off: nat
    var rewound: bool
    ghost var peak: nat
    ghost var lens: seq<nat>

    constructor (zero: T)
      ensures Valid() && Used() == 0 && Capacity() == 0
      ensures this.zero == zero
    {
      this.zero := zero;
      chunks, at, off, rewound, peak, lens := [], 0, 0, false, 0, [];
    }

    ghost function Here(): BlockMark
      reads this
    {
      BlockMark(at, off)
    }

    /** The cells handed out and not given back. */
    ghost function Used(): nat
      reads this
    {
      Position(lens, Here())
    }

    ghost function Capacity(): nat
      reads this
    {
      Sum(lens, |lens|)
    }

    /** Cells past the most that were ever in use hold nothing, and until the block has handed cells
        back those are the cells past its position. */
    ghost predicate Valid()
      reads this
    {
      && |lens| == |chunks|
      && (forall i :: 0 <= i < |chunks| ==> |chunks[i]| == lens[i] > 0)
      && MarkIn(lens, Here())
      && Used() <= peak
      && (!rewound ==> peak == Used())
      && (forall c, o :: 0 <= c < |chunks| && 0 <= o < |chunks[c]| && peak <= Sum(lens, c) + o ==> chunks[c][o] == zero)
    }

    /** advance: the next chunk, a new one where there is none left. */
    method Advance(size: nat)
      requires Valid() && size > 0
      requires at < |chunks| ==> off == |chunks[at]|
      modifies this`chunks, this`at, this`off, this`lens
      ensures Valid()
      ensures at < |chunks| && off < |chunks[at]|
      ensures Used() == old(Used()) < Capacity()
      ensures Capacity() == old(Capacity()) + if old(Used()) == old(Capacity()) then size else 0
      ensures old(chunks) <= chunks && old(lens) <= lens
    {
      if at + 1 < |chunks| {
        at, off := at + 1, 0;
        SumMonotone(lens, at, |lens|);
        return;
      }
      Grow(size);
    }

    method Grow(size: nat)
      requires Valid() && size > 0 && Used() == Capacity()
      modifies this`chunks, this`at, this`off, this`lens
      ensures Valid()
      ensures at < |chunks| && off < |chunks[at]|
      ensures Used() == old(Used())
      ensures Capacity() == old(Capacity()) + size
      ensures old(chunks) <= chunks && old(lens) <= lens
    {
      ghost var was := lens;
      chunks, lens := chunks + [seq(size, _ => zero)], lens + [size];
      at, off := |chunks| - 1, 0;
      forall c | 0 <= c <= |was| ensures Sum(lens, c) == Sum(was, c) {
        SumPrefix(was, [size], c);
      }
    }

    /** The cell in hand, cleared where a node may have stood in it. */
    method Take() returns (c: nat, o: nat)
      requires Valid() && at < |chunks| && off < |chunks[at]|
      modifies this`off, this`peak, this`chunks
      ensures Valid()
      ensures c == old(at) && o == old(off)
      ensures chunks == old(chunks)[c := old(chunks)[c][o := zero]]
      ensures Used() == old(Used()) + 1
    {
      ghost var used := Used();
      c, o := at, off;
      off := off + 1;
      if used >= peak { peak := used + 1; }
      if rewound {
        chunks := chunks[c := chunks[c][o := zero]];
      } else {
        assert chunks[c] == chunks[c][o := zero];
        assert chunks == chunks[c := chunks[c]];
      }
    }

    /** next: the cell the position names, holding nothing. No other cell changes. */
    method Next(size: nat) returns (c: nat, o: nat)
      requires Valid() && size > 0
      modifies this
      ensures Valid()
      ensures c < |chunks| && o < |chunks[c]| && chunks[c][o] == zero
      ensures Sum(lens, c) + o == old(Used())
      ensures Used() == old(Used()) + 1
      ensures Capacity() == old(Capacity()) + if old(Used()) == old(Capacity()) then size else 0
      ensures old(lens) <= lens
      ensures forall d, p :: 0 <= d < |old(chunks)| && 0 <= p < |old(chunks)[d]| && (d != c || p != o) ==>
                d < |chunks| && p < |chunks[d]| && chunks[d][p] == old(chunks)[d][p]
    {
      if at >= |chunks| || off == |chunks[at]| {
        Advance(size);
      } else {
        SumMonotone(lens, at, |lens|);
      }
      c, o := Take();
    }

    method Mark() returns (m: BlockMark)
      requires Valid()
      ensures MarkIn(lens, m) && Position(lens, m) == Used()
    {
      if |chunks| == 0 {
        return BlockMark(0, 0);
      }
      return BlockMark(at, off);
    }

    /** rewind: the cells above m are handed out again. */
    method Rewind(m: BlockMark)
      requires Valid() && MarkIn(lens, m) && Position(lens, m) <= Used()
      modifies this`at, this`off, this`rewound
      ensures Valid()
      ensures Used() == Position(lens, m)
    {
      if |chunks| == 0 {
        return;
      }
      at, off := m.at, m.used;
      rewound := true;
    }

    /** A node's constructor fills the cell it was handed. */
    method Fill(c: nat, o: nat, v: T)
      requires Valid() && c < |chunks| && o < |chunks[c]| && Sum(lens, c) + o < Used()
      modifies this`chunks
      ensures Valid() && chunks == old(chunks)[c := old(chunks)[c][o := v]]
    {
      chunks := chunks[c := chunks[c][o := v]];
    }
  }

  type Marks = m: seq<BlockMark> | |m| == KINDS witness seq(KINDS, _ => BlockMark(0, 0))

  /** The nine blocks, in the order the program names them, and the stack of marks. */
  class Arena<T> {
    const blocks: seq<Block<T>>
    var size: nat
    var marks: seq<Marks>
    ghost var model: State

    ghost predicate AllValid()
      reads this, blocks
    {
      && |blocks| == KINDS
      && (forall j, k :: 0 <= j < k < KINDS ==> blocks[j] != blocks[k])
      && (forall k :: 0 <= k < KINDS ==> blocks[k].Valid())
    }

    /** The chunks and marks stand for the counters of the model. */
    ghost predicate Valid()
      reads this, blocks
    {
      && AllValid()
      && Monotone(model) && |model.used| == KINDS && |model.marks| == |marks|
      && model.size == ChunkSize()
      && (forall k :: 0 <= k < KINDS ==> model.used[k] == blocks[k].Used() && model.capacity[k] == blocks[k].Capacity())
      && (forall i :: 0 <= i < |marks| ==> StandsFor(marks[i], model.marks[i]))
    }

    ghost predicate StandsFor(m: Marks, positions: seq<nat>)
      reads this, blocks
      requires |blocks| == KINDS
    {
      |positions| == KINDS &&
      forall k :: 0 <= k < KINDS ==> MarkIn(blocks[k].lens, m[k]) && Position(blocks[k].lens, m[k]) == positions[k]
    }

    function ChunkSize(): nat
      reads this
    {
      if size == 0 then MIN_NODE_BLOCK else size
    }

    constructor (n: int, zero: T)
      ensures Valid() && fresh(blocks)
      ensures model == Fresh(KINDS, BlockSize(n))
    {
      var all: seq<Block<T>> := [];
      for k := 0 to KINDS
        invariant |all| == k && fresh(all)
        invariant forall i :: 0 <= i < k ==> all[i].Valid() && all[i].Used() == 0 && all[i].Capacity() == 0
        invariant forall i, j :: 0 <= i < j < k ==> all[i] != all[j]
      {
        var b := new Block<T>(zero);
        all := all + [b];
      }
      blocks := all;
      size := BlockSize(n);
      marks := [];
      model := Fresh(KINDS, BlockSize(n));
    }

    /** A request for a node of one kind: a cell of its block that holds nothing, numbered by the block's
        position, and no other cell touched. */
    method Request(kind: nat) returns (c: nat, o: nat)
      requires Valid() && kind < KINDS
      modifies this`model, blocks[kind]
      ensures Valid() && model == Step(old(model), Alloc(kind))
      ensures c < |blocks[kind].chunks| && o < |blocks[kind].chunks[c]|
      ensures blocks[kind].chunks[c][o] == blocks[kind].zero
      ensures Sum(blocks[kind].lens, c) + o == old(model.used[kind])
      ensures forall d, p ::
                0 <= d < |old(blocks[kind].chunks)| && 0 <= p < |old(blocks[kind].chunks)[d]| && (d != c || p != o) ==>
                d < |blocks[kind].chunks| && p < |blocks[kind].chunks[d]|
                && blocks[kind].chunks[d][p] == old(blocks[kind].chunks)[d][p]
    {
      MonotoneKept(model, Alloc(kind));
      ghost var lens := blocks[kind].lens;
      c, o := blocks[kind].Next(ChunkSize());
      model := Step(model, Alloc(kind));
      forall i | 0 <= i < |marks| ensures StandsFor(marks[i], model.marks[i]) {
        LensGrew(lens, blocks[kind].lens, marks[i][kind]);
      }
    }

    /** Where the arena stands. */
    method Mark() returns (m: Marks)
      requires Valid()
      ensures StandsFor(m, model.used)
    {
      var all: seq<BlockMark> := [];
      for k := 0 to KINDS
        invariant |all| == k
        invariant forall i :: 0 <= i < k ==>
                    MarkIn(blocks[i].lens, all[i]) && Position(blocks[i].lens, all[i]) == model.used[i]
      {
        var one := blocks[k].Mark();
        all := all + [one];
      }
      m := all;
    }

    method Push()
      requires Valid()
      modifies this`marks, this`model
      ensures Valid() && model == Step(old(model), Op.Push)
    {
      MonotoneKept(model, Op.Push);
      var m := Mark();
      marks := marks + [m];
      model := Step(model, Op.Push);
    }

    /** Every block back to its mark. */
    method RewindAll(m: Marks, ghost to: seq<nat>)
      requires AllValid()
      requires StandsFor(m, to) && forall k :: 0 <= k < KINDS ==> to[k] <= blocks[k].Used()
      modifies blocks`at, blocks`off, blocks`rewound
      ensures AllValid() && forall k :: 0 <= k < KINDS ==> blocks[k].Used() == to[k]
    {
      for i := 0 to KINDS
        invariant AllValid() && StandsFor(m, to)
        invariant forall k :: 0 <= k < i ==> blocks[k].Used() == to[k]
        invariant forall k :: i <= k < KINDS ==> to[k] <= blocks[k].Used()
      {
        RewindOne(blocks[i], i, m[i]);
      }
    }

    method RewindOne(b: Block<T>, ghost i: nat, m: BlockMark)
      requires AllValid() && i < KINDS && b == blocks[i]
      requires MarkIn(b.lens, m) && Position(b.lens, m) <= b.Used()
      modifies b`at, b`off, b`rewound
      ensures AllValid()
      ensures b.Used() == Position(b.lens, m)
      ensures forall k :: 0 <= k < KINDS && k != i ==> blocks[k].Used() == old(blocks[k].Used())
    {
      b.Rewind(m);
    }

    method Pop()
      requires Valid()
      modifies this`marks, this`model, blocks`at, blocks`off, blocks`rewound
      ensures Valid() && model == Step(old(model), Op.Pop)
    {
      if |marks| == 0 {
        return;
      }
      ghost var next := Popped(model);
      var last := |marks| - 1;
      var rest := marks[..last];
      RewindAll(marks[last], next.used);
      forall i | 0 <= i < last ensures StandsFor(rest[i], next.marks[i]) {
        assert old(StandsFor(marks[i], model.marks[i]));
      }
      marks, model := rest, next;
    }

    /** The model's step, and what the blocks are to be rewound to. */
    ghost function Popped(s: State): (s': State)
      requires Monotone(s) && s.marks != []
      ensures s' == Step(s, Op.Pop) && Monotone(s')
      ensures s'.used == s.marks[|s.marks| - 1] && s'.marks == s.marks[..|s.marks| - 1]
      ensures s'.capacity == s.capacity && s'.size == s.size
      ensures forall k :: 0 <= k < |s.used| ==> s'.used[k] <= s.used[k]
    {
      MonotoneKept(s, Op.Pop);
      PopLowers(s);
      Step(s, Op.Pop)
    }

    method Reset(n: int)
      requires Valid()
      modifies this`marks, this`model, this`size, blocks`at, blocks`off, blocks`rewound
      ensures Valid() && model == Step(old(model), Op.Reset(n))
    {
      var start: Marks := seq(KINDS, _ => BlockMark(0, 0));
      RewindAll(start, Zeros(KINDS));
      marks := [];
      size := BlockSize(n);
      model := Step(model, Op.Reset(n));
    }

    /** Commit raises the outstanding marks to where the arena stands. */
    method Commit()
      requires Valid()
      modifies this`marks, this`model
      ensures Valid() && model == Step(old(model), Op.Commit)
    {
      ghost var next := Committed(model);
      if |marks| > 0 {
        var here := Mark();
        marks := RaiseMarks(here);
      }
      model := next;
    }

    /** The model's step, and where it leaves the marks. */
    ghost function Committed(s: State): (s': State)
      requires Monotone(s) && |s.used| == KINDS
      ensures s' == Step(s, Op.Commit) && Monotone(s')
      ensures s'.used == s.used && s'.capacity == s.capacity && s'.size == s.size && |s'.marks| == |s.marks|
      ensures forall i :: 0 <= i < |s.marks| ==> s'.marks[i] == Raised(s.marks[i], s.used)
    {
      MonotoneKept(s, Op.Commit);
      Step(s, Op.Commit)
    }

    /** Every outstanding mark moved forward to `here`, in every block where `here` stands further on. */
    method RaiseMarks(here: Marks) returns (raised: seq<Marks>)
      requires Valid() && StandsFor(here, model.used)
      ensures |raised| == |marks|
      ensures forall i :: 0 <= i < |marks| ==> StandsFor(raised[i], Raised(model.marks[i], model.used))
    {
      raised := [];
      for i := 0 to |marks|
        invariant |raised| == i
        invariant forall j :: 0 <= j < i ==> StandsFor(raised[j], Raised(model.marks[j], model.used))
      {
        var r := Raise(marks[i], here, model.marks[i]);
        raised := raised + [r];
      }
    }

    method Raise(m: Marks, to: Marks, ghost at: seq<nat>) returns (r: Marks)
      requires Valid() && StandsFor(m, at) && StandsFor(to, model.used)
      ensures StandsFor(r, Raised(at, model.used))
    {
      var all: seq<BlockMark> := [];
      for k := 0 to KINDS
        invariant |all| == k
        invariant forall i :: 0 <= i < k ==>
                    MarkIn(blocks[i].lens, all[i]) && Position(blocks[i].lens, all[i]) == Max(at[i], model.used[i])
      {
        LaterMarkIsMax(blocks[k].lens, m[k], to[k]);
        all := all + [LaterMark(m[k], to[k])];
      }
      r := all;
    }
  }

  /** A mark means what it meant once chunks are added. */
  lemma LensGrew(lens: seq<nat>, lens': seq<nat>, m: BlockMark)
    requires lens <= lens' && MarkIn(lens, m)
    ensures MarkIn(lens', m) && Position(lens', m) == Position(lens, m)
  {
    assert lens' == lens + lens'[|lens|..];
    MarkStays(lens, lens'[|lens|..], m);
  }
}
