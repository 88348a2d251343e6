/** The steps of a cipher as section 5.1 of FIPS 197 has them, with a substitution of its own for every
    position and any column map, and how they undo the steps of the program's ciphers. Byte `i` of a block is
    in row `i % 4` and column `i / 4`. */
module Fips197 {
  import opened Words
  import opened Blocks

  /** Row `r` moves left by `r` columns. */
  function ShiftRows(b: Block): Block {
    seq(BLOCK, i requires 0 <= i < BLOCK => b[i % 4 + 4 * ((i / 4 + i % 4) % 4)])
  }

  function SubBytes(sub: Substitution, b: Block): Block {
    seq(BLOCK, i requires 0 <= i < BLOCK => sub(i, b[i]))
  }

  lemma SameSubstitution(sub: Substitution, b: Block, sub': Substitution, b': Block)
    requires forall i: nat :: i < BLOCK ==> sub(i, b[i]) == sub'(i, b'[i])
    ensures SubBytes(sub, b) == SubBytes(sub', b')
  {
  }

  function ColumnOf(b: Block, c: nat): Word
    requires c < 4
  {
    Word(b[4 * c], b[4 * c + 1], b[4 * c + 2], b[4 * c + 3])
  }

  function InRow(w: Word, r: nat): Byte
    requires r < 4
  {
    match r
    case 0 => w.b0
    case 1 => w.b1
    case 2 => w.b2
    case _ => w.b3
  }

  function MixEachColumn(mix: WordMap, b: Block): Block {
    seq(BLOCK, i requires 0 <= i < BLOCK => InRow(mix(ColumnOf(b, i / 4)), i % 4))
  }

  // ---- Against the program's steps ----

  ghost predicate InverseSubs(back: Substitution, sub: Substitution) {
    && (forall i: nat, v {:trigger back(i, sub(i, v))} :: i < BLOCK ==> back(i, sub(i, v)) == v)
    && (forall i: nat, v {:trigger sub(i, back(i, v))} :: i < BLOCK ==> sub(i, back(i, v)) == v)
  }

  ghost predicate InverseMaps(back: WordMap, mix: WordMap) {
    && (forall w {:trigger back(mix(w))} :: back(mix(w)) == w)
    && (forall w {:trigger mix(back(w))} :: mix(back(w)) == w)
  }

  lemma TargetIsShifted(i: nat)
    requires i < BLOCK
    ensures Target(i) == i % 4 + 4 * ((i / 4 + i % 4) % 4)
  {
    var row, column := i % 4, i / 4;
    assert (column + row) % 4 == if column + row < 4 then column + row else column + row - 4;
  }

  lemma TargetOfSource(i: nat)
    requires i < BLOCK
    ensures Target(Source(i)) == i
  {
    var row, column := i % 4, i / 4;
    var column' := if column >= row then column - row else column + 4 - row;
    Cell(column', row);
  }

  /** Byte by byte. */
  lemma ShiftedBack(back: Substitution, b: Block, i: nat)
    requires i < BLOCK
    ensures ShiftRows(SubBytes(back, b))[i] == back(Target(i), b[Target(i)])
  {
    TargetIsShifted(i);
  }

  /** Substituting back and shifting the rows back undoes the permutation in place, and is undone by it. */
  lemma ShiftSubUndone(back: Substitution, sub: Substitution, b: Block)
    requires InverseSubs(back, sub)
    ensures ShiftRows(SubBytes(back, ShiftSub(b, sub))) == b
    ensures ShiftSub(ShiftRows(SubBytes(back, b)), sub) == b
  {
    forall i: nat | i < BLOCK
      ensures ShiftRows(SubBytes(back, ShiftSub(b, sub)))[i] == b[i]
      ensures ShiftSub(ShiftRows(SubBytes(back, b)), sub)[i] == b[i]
    {
      ShiftedBack(back, ShiftSub(b, sub), i);
      ShiftedBack(back, b, Source(i));
      TargetOfSource(i);
    }
  }

  lemma ColumnsAreColumns(mix: WordMap, b: Block)
    ensures MixEachColumn(mix, b) == Columns(mix, b)
  {
    forall i: nat | i < BLOCK
      ensures MixEachColumn(mix, b)[i] == Columns(mix, b)[i]
    {
      assert RdLe(b, i / 4) == ColumnOf(b, i / 4);
    }
  }

  lemma ColumnsCompose(outer: WordMap, inner: WordMap, b: Block)
    requires forall w :: outer(inner(w)) == w
    ensures Columns(outer, Columns(inner, b)) == b
  {
    forall w: nat | w < 4
      ensures RdLe(Columns(outer, Columns(inner, b)), w) == RdLe(b, w)
    {
      ColumnWord(outer, Columns(inner, b), w);
      ColumnWord(inner, b, w);
    }
    SameWords(Columns(outer, Columns(inner, b)), b);
  }

  lemma ColumnsUndone(back: WordMap, mix: WordMap, b: Block)
    requires InverseMaps(back, mix)
    ensures MixEachColumn(back, Columns(mix, b)) == b && Columns(mix, MixEachColumn(back, b)) == b
  {
    ColumnsAreColumns(back, Columns(mix, b));
    ColumnsAreColumns(back, b);
    ColumnsCompose(back, mix, b);
    ColumnsCompose(mix, back, b);
  }

  // ---- Tables ----

  /** `back` inverts the first slices of a table. */
  ghost predicate InvertSlices(back: Substitution, table: seq<Slice>, slices: nat) {
    && slices <= |table|
    && (forall n: nat, v {:trigger back(n, Look(table[n], v, 0))} ::
          n < slices ==> back(n, Look(table[n], v, 0)) == v)
    && (forall n: nat, v {:trigger Look(table[n], back(n, v), 0)} ::
          n < slices ==> Look(table[n], back(n, v), 0) == v)
  }

  lemma SliceInverted(back: Substitution, table: seq<Slice>, slices: nat, n: nat, v: Byte)
    requires InvertSlices(back, table, slices) && n < slices
    ensures back(n, Look(SliceOf(table, n), v, 0)) == v && Look(SliceOf(table, n), back(n, v), 0) == v
  {
    assert back(n, Look(table[n], v, 0)) == v && Look(table[n], back(n, v), 0) == v;
  }

  ghost function SliceBack(table: seq<Slice>, n: nat, v: Byte): Byte {
    if x :| Look(SliceOf(table, n), x, 0) == v then x else 0
  }

  ghost function SlicesBack(table: seq<Slice>): Substitution {
    (n: nat, v: Byte) => SliceBack(table, n, v)
  }

  lemma InjectiveSliceIsThere(table: seq<Slice>, n: nat)
    ensures SliceInjective(SliceOf(table, n)) ==> n < |table|
  {
    if |table| <= n {
      assert Look(SliceOf(table, n), 0, 0) == Look(SliceOf(table, n), 1, 0);
    }
  }

  lemma NoSliceIsMissing(table: seq<Slice>, slices: nat)
    requires SlicesInjective(table, slices)
    ensures slices <= |table|
  {
    InjectiveSliceIsThere(table, |table|);
  }

  /** Injective slices have an inverse. */
  lemma SlicesBackInverts(table: seq<Slice>, slices: nat)
    requires SlicesInjective(table, slices)
    ensures InvertSlices(SlicesBack(table), table, slices)
  {
    NoSliceIsMissing(table, slices);
    forall n: nat, v | n < slices
      ensures SliceBack(table, n, Look(table[n], v, 0)) == v && Look(table[n], SliceBack(table, n, v), 0) == v
    {
      assert SliceInjective(SliceOf(table, n));
      EveryByteIsReached((x: Byte) => Look(SliceOf(table, n), x, 0), v);
    }
  }

  ghost function WordBack(mix: WordMap): WordMap {
    (w: Word) => if v :| mix(v) == w then v else ZERO
  }

  /** An injective column map has an inverse. */
  lemma WordBackInverts(mix: WordMap)
    requires forall v, w :: mix(v) == mix(w) ==> v == w
    ensures InverseMaps(WordBack(mix), mix)
  {
    forall w ensures mix(WordBack(mix)(w)) == w {
      EveryWordIsReached(mix, w);
    }
  }

  /** What the four bytes of a column make of it together. */
  type ColumnFunction = (Byte, Byte, Byte, Byte) -> Word

  ghost predicate InvertColumns(back: WordMap, sum: ColumnFunction) {
    && (forall b0, b1, b2, b3 {:trigger back(sum(b0, b1, b2, b3))} ::
          back(sum(b0, b1, b2, b3)) == Word(b0, b1, b2, b3))
    && (forall w {:trigger back(w)} :: var m := back(w); sum(m.b0, m.b1, m.b2, m.b3) == w)
  }

  ghost predicate SameColumns(mix: WordMap, sum: ColumnFunction) {
    forall w {:trigger mix(w)} :: mix(w) == sum(w.b0, w.b1, w.b2, w.b3)
  }

  lemma InvertedColumns(back: WordMap, mix: WordMap, sum: ColumnFunction)
    requires InvertColumns(back, sum) && SameColumns(mix, sum)
    ensures InverseMaps(back, mix)
  {
  }

  lemma InverseOfColumns(back: WordMap, mix: WordMap, sum: ColumnFunction)
    requires InverseMaps(back, mix) && SameColumns(mix, sum)
    ensures InvertColumns(back, sum)
  {
    forall b0, b1, b2, b3
      ensures back(sum(b0, b1, b2, b3)) == Word(b0, b1, b2, b3)
    {
      BackOfSum(back, mix, sum, Word(b0, b1, b2, b3));
    }
    forall w {:trigger back(w)}
      ensures var m := back(w); sum(m.b0, m.b1, m.b2, m.b3) == w
    {
      assert mix(back(w)) == w;
    }
  }

  lemma BackOfSum(back: WordMap, mix: WordMap, sum: ColumnFunction, w: Word)
    requires InverseMaps(back, mix) && SameColumns(mix, sum)
    ensures back(sum(w.b0, w.b1, w.b2, w.b3)) == w
  {
    assert back(mix(w)) == w;
  }

  // ---- Rounds in the opposite order ----

  /** Step `n - 1 - l` of `back` undoes step `l`. */
  ghost predicate Reverses(back: Step, step: Step, n: nat) {
    forall l: nat, b: Block {:trigger step(l, b)} :: l < n ==> back(n - 1 - l, step(l, b)) == b
  }

  lemma {:induction false} ReversedRounds(back: Step, step: Step, b: Block, n: nat, m: nat)
    requires m <= n && Reverses(back, step, n)
    ensures Iterate(back, Iterate(step, b, n), m) == Iterate(step, b, n - m)
  {
    if m == 0 {
    } else {
      ReversedRounds(back, step, b, n, m - 1);
      var l := n - m;
      assert Iterate(step, b, l + 1) == step(l, Iterate(step, b, l));
    }
  }

  lemma RoundsUndone(back: Step, step: Step, b: Block, n: nat)
    requires Reverses(back, step, n)
    ensures Iterate(back, Iterate(step, b, n), n) == b
  {
    ReversedRounds(back, step, b, n, n);
  }
}
