/** The 16-byte block and the permutation that the FairPlay cipher performs on it in place: rows are
    shifted and every byte is substituted by a table of its own. */
module Blocks {
  import opened Words

  const BLOCK := 16

  type Block = s: seq<Byte> | |s| == BLOCK witness seq(BLOCK, _ => 0)

  function Xor(b: Block, c: Block): Block {
    seq(BLOCK, i requires 0 <= i < BLOCK => b[i] ^ c[i])
  }

  lemma XorTwice(b: Block, c: Block)
    ensures Xor(Xor(b, c), c) == b
  {
    forall i | 0 <= i < BLOCK
      ensures Xor(Xor(b, c), c)[i] == b[i]
    {
      XorByteTwice(b[i], c[i]);
    }
  }

  lemma XorCancels(b: Block, c: Block, k: Block)
    requires Xor(b, k) == Xor(c, k)
    ensures b == c
  {
    XorTwice(b, k);
    XorTwice(c, k);
  }

  method XorBlocks(a: Block, b: Block, out: array<Byte>)
    requires out.Length == BLOCK
    modifies out
    ensures out[..] == Xor(a, b)
  {
    for i := 0 to BLOCK
      invariant forall j :: 0 <= j < i ==> out[j] == a[j] ^ b[j]
    {
      out[i] := a[i] ^ b[i];
    }
  }

  lemma XorWord(b: Block, c: Block, w: nat)
    requires w < 4
    ensures RdLe(Xor(b, c), w) == Xor32(RdLe(b, w), RdLe(c, w))
  {
  }

  lemma Cell(w: nat, k: nat)
    requires k < 4
    ensures (4 * w + k) / 4 == w && (4 * w + k) % 4 == k
  {
  }

  /** Blocks with the same words are the same. */
  lemma SameWords(b: Block, c: Block)
    requires forall w: nat :: w < 4 ==> RdLe(b, w) == RdLe(c, w)
    ensures b == c
  {
    forall i | 0 <= i < BLOCK
      ensures b[i] == c[i]
    {
      assert i == 4 * (i / 4) + i % 4;
      assert RdLe(b, i / 4) == RdLe(c, i / 4);
    }
  }

  // ---- Shifting rows and substituting ----

  /** Where output byte `i` comes from: row `i % 4` moves right by its own number, as InvShiftRows in
      section 5.3.1 of FIPS 197 (byte `i` is in row `i % 4` and column `i / 4`). */
  function Source(i: nat): (s: nat)
    requires i < BLOCK
    ensures s < BLOCK
  {
    var row, column := i % 4, i / 4;
    row + 4 * (if column >= row then column - row else column + 4 - row)
  }

  function Target(i: nat): (s: nat)
    requires i < BLOCK
    ensures s < BLOCK && Source(s) == i
  {
    var row, column := i % 4, i / 4;
    row + 4 * (if column + row < 4 then column + row else column + row - 4)
  }

  /** A substitution of its own for every position of a block. */
  type Substitution = (nat, Byte) -> Byte

  /** Simultaneous InvShiftRows and substitution. */
  function ShiftSub(b: Block, sub: Substitution): Block {
    seq(BLOCK, i requires 0 <= i < BLOCK => sub(i, b[Source(i)]))
  }

  ghost predicate SameRow(b: Block, r: Block, row: nat)
    requires row < 4
  {
    r[row] == b[row] && r[row + 4] == b[row + 4] && r[row + 8] == b[row + 8] && r[row + 12] == b[row + 12]
  }

  /** `r` is `b` with one row replaced, four positions simultaneously; `f` names their sources. */
  ghost predicate RowSub(b: Block, r: Block, sub: Substitution, row: nat, f0: nat, f1: nat, f2: nat, f3: nat)
    requires row < 4 && f0 < BLOCK && f1 < BLOCK && f2 < BLOCK && f3 < BLOCK
  {
    && r[row] == sub(row, b[f0]) && r[row + 4] == sub(row + 4, b[f1])
    && r[row + 8] == sub(row + 8, b[f2]) && r[row + 12] == sub(row + 12, b[f3])
    && (row == 0 || SameRow(b, r, 0)) && (row == 1 || SameRow(b, r, 1))
    && (row == 2 || SameRow(b, r, 2)) && (row == 3 || SameRow(b, r, 3))
  }

  method PermuteRow0(block: array<Byte>, sub: Substitution)
    requires block.Length == BLOCK
    modifies block
    ensures RowSub(old(block[..]), block[..], sub, 0, 0, 4, 8, 12)
  {
    block[0] := sub(0, block[0]);
    block[4] := sub(4, block[4]);
    block[8] := sub(8, block[8]);
    block[12] := sub(12, block[12]);
  }

  method PermuteRow1(block: array<Byte>, sub: Substitution)
    requires block.Length == BLOCK
    modifies block
    ensures RowSub(old(block[..]), block[..], sub, 1, 13, 1, 5, 9)
  {
    var tmp := block[13];
    block[13] := sub(13, block[9]);
    block[9] := sub(9, block[5]);
    block[5] := sub(5, block[1]);
    block[1] := sub(1, tmp);
  }

  method PermuteRow2(block: array<Byte>, sub: Substitution)
    requires block.Length == BLOCK
    modifies block
    ensures RowSub(old(block[..]), block[..], sub, 2, 10, 14, 2, 6)
  {
    var tmp := block[2];
    block[2] := sub(2, block[10]);
    block[10] := sub(10, tmp);
    tmp := block[6];
    block[6] := sub(6, block[14]);
    block[14] := sub(14, tmp);
  }

  method PermuteRow3(block: array<Byte>, sub: Substitution)
    requires block.Length == BLOCK
    modifies block
    ensures RowSub(old(block[..]), block[..], sub, 3, 7, 11, 15, 3)
  {
    var tmp := block[3];
    block[3] := sub(3, block[7]);
    block[7] := sub(7, block[11]);
    block[11] := sub(11, block[15]);
    block[15] := sub(15, tmp);
  }

  /** The sixteen assignments shared by `permute_block_1`, `permute_block_2` and two places in
      `decrypt_message`, with their temporaries and in their order, row by row. */
  method PermuteInPlace(block: array<Byte>, sub: Substitution)
    requires block.Length == BLOCK
    modifies block
    ensures block[..] == ShiftSub(old(block[..]), sub)
  {
    ghost var b0 := block[..];
    PermuteRow0(block, sub);
    ghost var b1 := block[..];
    PermuteRow1(block, sub);
    ghost var b2 := block[..];
    PermuteRow2(block, sub);
    ghost var b3 := block[..];
    PermuteRow3(block, sub);
    RowsTogether(b0, b1, b2, b3, block[..], sub);
  }

  lemma RowsTogether(b0: Block, b1: Block, b2: Block, b3: Block, b4: Block, sub: Substitution)
    requires RowSub(b0, b1, sub, 0, 0, 4, 8, 12)
    requires RowSub(b1, b2, sub, 1, 13, 1, 5, 9)
    requires RowSub(b2, b3, sub, 2, 10, 14, 2, 6)
    requires RowSub(b3, b4, sub, 3, 7, 11, 15, 3)
    ensures b4 == ShiftSub(b0, sub)
  {
    forall i: nat | i < BLOCK
      ensures b4[i] == sub(i, b0[Source(i)])
    {
      if i % 4 == 0 {
        assert i == 0 || i == 4 || i == 8 || i == 12;
      } else if i % 4 == 1 {
        assert i == 1 || i == 5 || i == 9 || i == 13;
      } else if i % 4 == 2 {
        assert i == 2 || i == 6 || i == 10 || i == 14;
      } else {
        assert i == 3 || i == 7 || i == 11 || i == 15;
      }
    }
  }

  /** Every position has an injective substitution. */
  ghost predicate Injective(sub: Substitution) {
    forall i: nat, x, y :: i < BLOCK && sub(i, x) == sub(i, y) ==> x == y
  }

  lemma ShiftSubIsInjective(b: Block, c: Block, sub: Substitution)
    requires Injective(sub) && ShiftSub(b, sub) == ShiftSub(c, sub)
    ensures b == c
  {
    forall i | 0 <= i < BLOCK
      ensures b[i] == c[i]
    {
      assert ShiftSub(b, sub)[Target(i)] == ShiftSub(c, sub)[Target(i)];
    }
  }

  // ---- Columns ----

  type WordMap = Word -> Word

  function ColumnByte(mix: WordMap, b: Block, w: nat, k: nat): Byte
    requires w < 4 && k < 4
  {
    ByteOf(mix(RdLe(b, w)), k)
  }

  /** Every column, that is every word, through a map. */
  function Columns(mix: WordMap, b: Block): Block {
    seq(BLOCK, i requires 0 <= i < BLOCK => ColumnByte(mix, b, i / 4, i % 4))
  }

  lemma ColumnByteAt(mix: WordMap, b: Block, w: nat, k: nat)
    requires w < 4 && k < 4
    ensures Columns(mix, b)[4 * w + k] == ColumnByte(mix, b, w, k)
  {
    Cell(w, k);
  }

  lemma WordFromBytes(r: Block, w: nat, v: Word)
    requires w < 4
    requires r[4 * w + 0] == ByteOf(v, 0) && r[4 * w + 1] == ByteOf(v, 1)
    requires r[4 * w + 2] == ByteOf(v, 2) && r[4 * w + 3] == ByteOf(v, 3)
    ensures RdLe(r, w) == v
  {
  }

  lemma ColumnWord(mix: WordMap, b: Block, w: nat)
    requires w < 4
    ensures RdLe(Columns(mix, b), w) == mix(RdLe(b, w))
  {
    ColumnByteAt(mix, b, w, 0);
    ColumnByteAt(mix, b, w, 1);
    ColumnByteAt(mix, b, w, 2);
    ColumnByteAt(mix, b, w, 3);
    WordFromBytes(Columns(mix, b), w, mix(RdLe(b, w)));
  }

  lemma ColumnsIsInjective(mix: WordMap, b: Block, c: Block)
    requires forall v, w :: mix(v) == mix(w) ==> v == w
    requires Columns(mix, b) == Columns(mix, c)
    ensures b == c
  {
    forall w: nat | w < 4
      ensures RdLe(b, w) == RdLe(c, w)
    {
      ColumnWord(mix, b, w);
      ColumnWord(mix, c, w);
    }
    SameWords(b, c);
  }

  // ---- Rounds ----

  /** One numbered step on a block. */
  type Step = (nat, Block) -> Block

  /** Steps 0, ..., `n - 1` in this order. */
  function Iterate(step: Step, b: Block, n: nat): Block {
    if n == 0 then b else step(n - 1, Iterate(step, b, n - 1))
  }

  lemma {:induction false} IterateIsInjective(step: Step, b: Block, c: Block, n: nat)
    requires forall l: nat, x: Block, y: Block :: step(l, x) == step(l, y) ==> x == y
    requires Iterate(step, b, n) == Iterate(step, c, n)
    ensures b == c
  {
    if n == 0 {
    } else {
      IterateIsInjective(step, b, c, n - 1);
    }
  }

  // ---- Counting: on finitely many blocks an injective map reaches everything ----

  ghost function AllBytes(): set<Byte> {
    set i | 0 <= i < 256 :: ByteAt(i)
  }

  function ByteAt(i: nat): Byte
    requires i < 256
  {
    i as Byte
  }

  lemma EveryByte(b: Byte)
    ensures b in AllBytes()
  {
    assert ByteAt(b as int) == b;
  }

  ghost function AllSequences(n: nat): set<seq<Byte>> {
    if n == 0 then {[]} else set b, s | b in AllBytes() && s in AllSequences(n - 1) :: [b] + s
  }

  lemma {:induction false} EverySequence(s: seq<Byte>)
    ensures s in AllSequences(|s|)
  {
    if s == [] {
    } else {
      EveryByte(s[0]);
      EverySequence(s[1..]);
      assert s == [s[0]] + s[1..];
    }
  }

  lemma {:induction false} OnlySequences(n: nat, s: seq<Byte>)
    requires s in AllSequences(n)
    ensures |s| == n
    decreases n
  {
    if n == 0 {
    } else {
      var b, r :| b in AllBytes() && r in AllSequences(n - 1) && s == [b] + r;
      OnlySequences(n - 1, r);
    }
  }

  ghost function Image<T, U>(s: set<T>, f: T -> U): set<U> {
    set x | x in s :: f(x)
  }

  lemma {:induction false} ImageSize<T, U>(s: set<T>, f: T -> U)
    requires forall x, y :: x in s && y in s && f(x) == f(y) ==> x == y
    ensures |Image(s, f)| == |s|
    decreases |s|
  {
    if s == {} {
    } else {
      var z :| z in s;
      ImageSize(s - {z}, f);
      assert Image(s, f) == Image(s - {z}, f) + {f(z)};
    }
  }

  lemma SubsetOfSameSize<T>(s: set<T>, t: set<T>)
    requires s <= t && |s| == |t|
    ensures s == t
  {
    assert t == s + (t - s);
    assert |t| == |s| + |t - s|;
  }

  lemma InjectiveOnSequences(n: nat, g: seq<Byte> -> seq<Byte>, target: seq<Byte>)
    requires forall s :: |s| == n ==> |g(s)| == n
    requires forall r, s :: |r| == n && |s| == n && g(r) == g(s) ==> r == s
    requires |target| == n
    ensures exists s :: |s| == n && g(s) == target
  {
    var all := AllSequences(n);
    forall s | s in all ensures |s| == n { OnlySequences(n, s); }
    var image := Image(all, g);
    forall r | r in image ensures r in all { EverySequence(r); }
    ImageSize(all, g);
    SubsetOfSameSize(image, all);
    EverySequence(target);
  }

  /** An injective map of blocks is a bijection: every block has a preimage. */
  lemma InjectiveMapsReachEverything(f: Block -> Block, target: Block)
    requires forall x: Block, y: Block :: f(x) == f(y) ==> x == y
    ensures exists source: Block :: f(source) == target
  {
    var g := (s: seq<Byte>) => if |s| == BLOCK then f(s) else s;
    InjectiveOnSequences(BLOCK, g, target);
    var s :| |s| == BLOCK && g(s) == target;
    assert f(s) == target;
  }

  /** An injective map of bytes reaches every byte. */
  lemma EveryByteIsReached(f: Byte -> Byte, target: Byte)
    requires forall x, y :: f(x) == f(y) ==> x == y
    ensures exists source :: f(source) == target
  {
    var all := AllBytes();
    var image := Image(all, f);
    forall b | b in image ensures b in all { EveryByte(b); }
    ImageSize(all, f);
    SubsetOfSameSize(image, all);
    EveryByte(target);
  }

  function WordOf(s: seq<Byte>): Word
    requires |s| == 4
  {
    Word(s[0], s[1], s[2], s[3])
  }

  function BytesOf(w: Word): (s: seq<Byte>)
    ensures |s| == 4 && WordOf(s) == w
  {
    [w.b0, w.b1, w.b2, w.b3]
  }

  lemma SameBytes(r: seq<Byte>, s: seq<Byte>)
    requires |r| == |s| == 4 && WordOf(r) == WordOf(s)
    ensures r == s
  {
  }

  function OnBytes(f: WordMap): seq<Byte> -> seq<Byte> {
    (s: seq<Byte>) => if |s| == 4 then BytesOf(f(WordOf(s))) else s
  }

  lemma OnBytesAt(f: WordMap, s: seq<Byte>)
    requires |s| == 4
    ensures |OnBytes(f)(s)| == 4 && WordOf(OnBytes(f)(s)) == f(WordOf(s))
  {
    assert OnBytes(f)(s) == BytesOf(f(WordOf(s)));
  }

  /** An injective map of words reaches every word. */
  lemma EveryWordIsReached(f: WordMap, target: Word)
    requires forall v, w :: f(v) == f(w) ==> v == w
    ensures exists source :: f(source) == target
  {
    var g := OnBytes(f);
    forall s | |s| == 4 ensures |g(s)| == 4 { OnBytesAt(f, s); }
    forall r, s | |r| == 4 && |s| == 4 && g(r) == g(s) ensures r == s {
      OnBytesAt(f, r);
      OnBytesAt(f, s);
      SameBytes(r, s);
    }
    InjectiveOnSequences(4, g, BytesOf(target));
    var s :| |s| == 4 && g(s) == BytesOf(target);
    OnBytesAt(f, s);
  }
}
