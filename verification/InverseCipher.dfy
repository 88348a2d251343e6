/** `cycle`: the FairPlay block cipher, ten rounds in the shape of the inverse cipher of section 5.3
    of FIPS 197. Tables are parameters; only their sizes are fixed. */
module InverseCipher {
  import opened Words
  import opened Blocks
  import opened Fips197

  const S3_SLICES := 16
  const S4_SLICES := 144

  datatype Tables = Tables(s3: seq<Slice>, s4: seq<Slice>,
                           s5: map<Byte, Word>, s6: map<Byte, Word>, s7: map<Byte, Word>, s8: map<Byte, Word>)

  const ROUND_KEYS := 11

  /** `[[u32; 4]; 11]`, a row as the sixteen bytes of its little-endian words. */
  type Schedule = k: seq<Block> | |k| == ROUND_KEYS witness seq(ROUND_KEYS, _ => ZERO_BLOCK)

  const ZERO_BLOCK: Block := seq(BLOCK, _ => 0)

  method AddRoundKey(block: array<Byte>, key: Block)
    requires block.Length == BLOCK
    modifies block
    ensures block[..] == Xor(old(block[..]), key)
  {
    ghost var start := block[..];
    for i := 0 to 4
      invariant forall j: nat :: j < 4 ==>
                  RdLe(block[..], j) == if j < i then Xor32(RdLe(start, j), RdLe(key, j)) else RdLe(start, j)
    {
      XorU32(block, i, RdLe(key, i));
    }
    forall w: nat | w < 4 ensures RdLe(block[..], w) == RdLe(Xor(start, key), w) { XorWord(start, key, w); }
    SameWords(block[..], Xor(start, key));
  }

  /** The four-table column map on one word. */
  function Mix(t: Tables, w: Word): Word {
    Xor32(Xor32(Xor32(Look(t.s5, w.b3, ZERO), Look(t.s6, w.b2, ZERO)), Look(t.s7, w.b1, ZERO)), Look(t.s8, w.b0, ZERO))
  }

  function MixOf(t: Tables): WordMap {
    (w: Word) => Mix(t, w)
  }

  /** The four column updates of a round: table lookups on the bytes of a column, each combined with
      its round-key byte. */
  method KeyedColumns(t: Tables, block: array<Byte>, key: Block)
    requires block.Length == BLOCK
    modifies block
    ensures block[..] == Columns(MixOf(t), Xor(old(block[..]), key))
  {
    ghost var start := block[..];
    for w := 0 to 4
      invariant forall j: nat :: j < 4 ==>
                  RdLe(block[..], j) == if j < w then Mix(t, Xor32(RdLe(start, j), RdLe(key, j))) else RdLe(start, j)
    {
      WrLe(block, w, Mix(t, Xor32(RdLe(block[..], w), RdLe(key, w))));
    }
    forall w: nat | w < 4
      ensures RdLe(block[..], w) == RdLe(Columns(MixOf(t), Xor(start, key)), w)
    {
      XorWord(start, key, w);
      ColumnWord(MixOf(t), Xor(start, key), w);
    }
    SameWords(block[..], Columns(MixOf(t), Xor(start, key)));
  }

  /** `permute_block_1` keeps the slices of each row in a rotated order. */
  function S3Slice(i: nat): nat {
    i % 4 + 4 * ((i / 4 + i % 4) % 4)
  }

  function S3Sub(t: Tables): Substitution {
    (i: nat, v: Byte) => Look(SliceOf(t.s3, S3Slice(i)), v, 0)
  }

  /** `s4_base(i) >> 8` */
  function S4Slice(i: nat): (k: nat)
    ensures k < S4_SLICES
  {
    71 * i % S4_SLICES
  }

  function S4Sub(t: Tables, round: nat): Substitution {
    (i: nat, v: Byte) => Look(SliceOf(t.s4, S4Slice(round * 16 + i)), v, 0)
  }

  method PermuteBlock1(t: Tables, block: array<Byte>)
    requires block.Length == BLOCK
    modifies block
    ensures block[..] == ShiftSub(old(block[..]), S3Sub(t))
  {
    PermuteInPlace(block, S3Sub(t));
  }

  method PermuteBlock2(t: Tables, block: array<Byte>, round: nat)
    requires block.Length == BLOCK
    modifies block
    ensures block[..] == ShiftSub(old(block[..]), S4Sub(t, round))
  {
    PermuteInPlace(block, S4Sub(t, round));
  }

  /** Round key, inverse column map, inverse row shift with substitution. */
  function Round(t: Tables, key: Block, b: Block, round: nat): Block {
    ShiftSub(Columns(MixOf(t), Xor(b, key)), S4Sub(t, round))
  }

  method DoRound(t: Tables, block: array<Byte>, key: Block, round: nat)
    requires block.Length == BLOCK
    modifies block
    ensures block[..] == Round(t, key, old(block[..]), round)
  {
    KeyedColumns(t, block, key);
    PermuteBlock2(t, block, round);
  }

  /** The nine inner rounds use the keys 9, 8, ..., 1. */
  function RoundStep(t: Tables, k: Schedule): Step {
    (done: nat, b: Block) => if done < 9 then Round(t, k[9 - done], b, 8 - done) else b
  }

  lemma RoundStepAt(t: Tables, k: Schedule, done: nat, b: Block)
    ensures RoundStep(t, k)(done, b) == if done < 9 then Round(t, k[9 - done], b, 8 - done) else b
  {
  }

  function CipherBlock(t: Tables, k: Schedule, b: Block): Block {
    Xor(Iterate(RoundStep(t, k), ShiftSub(Xor(b, k[10]), S3Sub(t)), |k| - 2), k[0])
  }

  method InnerRounds(t: Tables, block: array<Byte>, k: Schedule)
    requires block.Length == BLOCK
    modifies block
    ensures block[..] == Iterate(RoundStep(t, k), old(block[..]), |k| - 2)
  {
    ghost var start: Block := block[..];
    for round := 0 to 9
      invariant block[..] == Iterate(RoundStep(t, k), start, round)
    {
      RoundStepAt(t, k, round, Iterate(RoundStep(t, k), start, round));
      DoRound(t, block, k[9 - round], 8 - round);
    }
  }

  method Cycle(t: Tables, block: array<Byte>, k: Schedule)
    requires block.Length == BLOCK
    modifies block
    ensures block[..] == CipherBlock(t, k, old(block[..]))
    ensures forall inv :: Invert(inv, t) ==> Enciphered(inv, k, block[..]) == old(block[..])
  {
    ghost var cipher: Block := block[..];
    forall inv | Invert(inv, t)
      ensures Enciphered(inv, k, CipherBlock(t, k, cipher)) == cipher
    {
      CipherBlockIsUndone(inv, t, k, cipher);
    }
    AddRoundKey(block, k[10]);
    PermuteBlock1(t, block);
    InnerRounds(t, block, k);
    AddRoundKey(block, k[0]);
  }

  // ---- Bijectivity ----

  ghost predicate ColumnMapInjective(t: Tables) {
    forall v, w :: Mix(t, v) == Mix(t, w) ==> v == w
  }

  ghost predicate Invertible(t: Tables) {
    SlicesInjective(t.s3, S3_SLICES) && SlicesInjective(t.s4, S4_SLICES) && ColumnMapInjective(t)
  }

  lemma SubstitutionsAreInjective(t: Tables, round: nat)
    requires Invertible(t)
    ensures Injective(S3Sub(t)) && Injective(S4Sub(t, round))
  {
    forall i: nat, x, y | i < BLOCK && S3Sub(t)(i, x) == S3Sub(t)(i, y)
      ensures x == y
    {
      assert SliceInjective(SliceOf(t.s3, S3Slice(i)));
    }
    forall i: nat, x, y | i < BLOCK && S4Sub(t, round)(i, x) == S4Sub(t, round)(i, y)
      ensures x == y
    {
      assert SliceInjective(SliceOf(t.s4, S4Slice(round * 16 + i)));
    }
  }

  lemma RoundIsInjective(t: Tables, key: Block, round: nat, b: Block, c: Block)
    requires Invertible(t) && Round(t, key, b, round) == Round(t, key, c, round)
    ensures b == c
  {
    SubstitutionsAreInjective(t, round);
    ShiftSubIsInjective(Columns(MixOf(t), Xor(b, key)), Columns(MixOf(t), Xor(c, key)), S4Sub(t, round));
    ColumnsIsInjective(MixOf(t), Xor(b, key), Xor(c, key));
    XorCancels(b, c, key);
  }

  lemma RoundStepIsInjective(t: Tables, k: Schedule)
    requires Invertible(t)
    ensures forall l: nat, x: Block, y: Block :: RoundStep(t, k)(l, x) == RoundStep(t, k)(l, y) ==> x == y
  {
    forall l: nat, x: Block, y: Block | RoundStep(t, k)(l, x) == RoundStep(t, k)(l, y)
      ensures x == y
    {
      RoundStepAt(t, k, l, x);
      RoundStepAt(t, k, l, y);
      if l < 9 {
        RoundIsInjective(t, k[9 - l], 8 - l, x, y);
      }
    }
  }

  lemma CycleIsInjective(t: Tables, k: Schedule, b: Block, c: Block)
    requires Invertible(t) && CipherBlock(t, k, b) == CipherBlock(t, k, c)
    ensures b == c
  {
    var b1, c1 := ShiftSub(Xor(b, k[10]), S3Sub(t)), ShiftSub(Xor(c, k[10]), S3Sub(t));
    var step := RoundStep(t, k);
    XorCancels(Iterate(step, b1, |k| - 2), Iterate(step, c1, |k| - 2), k[0]);
    RoundStepIsInjective(t, k);
    IterateIsInjective(step, b1, c1, |k| - 2);
    SubstitutionsAreInjective(t, 0);
    ShiftSubIsInjective(Xor(b, k[10]), Xor(c, k[10]), S3Sub(t));
    XorCancels(b, c, k[10]);
  }

  ghost predicate Reached(t: Tables, k: Schedule, target: Block) {
    exists b: Block :: CipherBlock(t, k, b) == target
  }

  /** For every fixed key schedule the cipher is a bijection on blocks. */
  lemma CycleIsABijection(t: Tables, k: Schedule)
    requires Invertible(t)
    ensures forall b: Block, c: Block :: CipherBlock(t, k, b) == CipherBlock(t, k, c) ==> b == c
    ensures forall target: Block :: Reached(t, k, target)
  {
    forall b: Block, c: Block | CipherBlock(t, k, b) == CipherBlock(t, k, c)
      ensures b == c
    {
      CycleIsInjective(t, k, b, c);
    }
    forall target: Block
      ensures Reached(t, k, target)
    {
      var f := (b: Block) => CipherBlock(t, k, b);
      InjectiveMapsReachEverything(f, target);
      var b: Block :| f(b) == target;
      assert CipherBlock(t, k, b) == target;
    }
  }

  // ---- The forward direction ----

  /** Inverses of the slices of two tables and of the column map. */
  datatype Inverses = Inverses(s3: Substitution, s4: Substitution, mix: WordMap)

  function ColumnSum(t: Tables): ColumnFunction {
    (b0: Byte, b1: Byte, b2: Byte, b3: Byte) =>
      Xor32(Xor32(Xor32(Look(t.s5, b3, ZERO), Look(t.s6, b2, ZERO)), Look(t.s7, b1, ZERO)), Look(t.s8, b0, ZERO))
  }

  ghost predicate Invert(inv: Inverses, t: Tables) {
    && InvertSlices(inv.s3, t.s3, S3_SLICES) && InvertSlices(inv.s4, t.s4, S4_SLICES)
    && InvertColumns(inv.mix, ColumnSum(t))
  }

  /** The slice of the first table for each position. */
  const S3_ORDER: seq<nat> := [0, 5, 10, 15, 4, 9, 14, 3, 8, 13, 2, 7, 12, 1, 6, 11]

  function LastSubstitution(inv: Inverses): Substitution {
    (i: nat, v: Byte) => if i < |S3_ORDER| then inv.s3(S3_ORDER[i], v) else v
  }

  /** Round `r`, counted from 1, takes the slices from `16 * (r - 1)` on, in steps of 71. */
  function RoundSubstitution(inv: Inverses, r: nat): Substitution
    requires r > 0
  {
    (i: nat, v: Byte) => inv.s4(71 * (16 * (r - 1) + i) % 144, v)
  }

  function ForwardRound(inv: Inverses, key: Block, b: Block, r: nat): Block
    requires r > 0
  {
    Xor(MixEachColumn(inv.mix, ShiftRows(SubBytes(RoundSubstitution(inv, r), b))), key)
  }

  /** Rounds 1 to 9, with the keys of the same numbers. */
  function ForwardStep(inv: Inverses, k: Schedule): Step {
    (done: nat, b: Block) => if done < 9 then ForwardRound(inv, k[done + 1], b, done + 1) else b
  }

  lemma ForwardStepAt(inv: Inverses, k: Schedule, done: nat, b: Block)
    ensures ForwardStep(inv, k)(done, b) == if done < 9 then ForwardRound(inv, k[done + 1], b, done + 1) else b
  {
  }

  /** The cipher of section 5.1 of FIPS 197: key 0, rounds with the keys 1 to 9, and a last round without
      column map and with key 10. */
  function Enciphered(inv: Inverses, k: Schedule, plain: Block): Block {
    Xor(ShiftRows(SubBytes(LastSubstitution(inv), Iterate(ForwardStep(inv, k), Xor(plain, k[0]), |k| - 2))), k[10])
  }

  lemma S3Ordered(i: nat)
    requires i < BLOCK
    ensures S3Slice(i) == S3_ORDER[i] < S3_SLICES
  {
  }

  lemma LastByteInverts(inv: Inverses, t: Tables, i: nat, v: Byte)
    requires InvertSlices(inv.s3, t.s3, S3_SLICES) && i < BLOCK
    ensures LastSubstitution(inv)(i, S3Sub(t)(i, v)) == v && S3Sub(t)(i, LastSubstitution(inv)(i, v)) == v
  {
    S3Ordered(i);
    SliceInverted(inv.s3, t.s3, S3_SLICES, S3_ORDER[i], v);
  }

  lemma LastSubstitutionInverts(inv: Inverses, t: Tables)
    requires Invert(inv, t)
    ensures InverseSubs(LastSubstitution(inv), S3Sub(t))
  {
    var back, sub := LastSubstitution(inv), S3Sub(t);
    forall i: nat, v {:trigger sub(i, v)} | i < BLOCK ensures back(i, sub(i, v)) == v {
      LastByteInverts(inv, t, i, v);
    }
    forall i: nat, v {:trigger back(i, v)} | i < BLOCK ensures sub(i, back(i, v)) == v {
      LastByteInverts(inv, t, i, v);
    }
  }

  lemma RoundSubstitutionAt(inv: Inverses, round: nat, i: nat, v: Byte)
    ensures RoundSubstitution(inv, round + 1)(i, v) == inv.s4(S4Slice(round * 16 + i), v)
  {
    assert 16 * (round + 1 - 1) + i == round * 16 + i;
  }

  lemma S4SubAt(t: Tables, round: nat, i: nat, v: Byte)
    ensures S4Sub(t, round)(i, v) == Look(SliceOf(t.s4, S4Slice(round * 16 + i)), v, 0)
  {
  }

  lemma RoundByteInverts(inv: Inverses, t: Tables, round: nat, i: nat, v: Byte)
    requires InvertSlices(inv.s4, t.s4, S4_SLICES)
    ensures RoundSubstitution(inv, round + 1)(i, S4Sub(t, round)(i, v)) == v
    ensures S4Sub(t, round)(i, RoundSubstitution(inv, round + 1)(i, v)) == v
  {
    RoundSubstitutionAt(inv, round, i, v);
    RoundSubstitutionAt(inv, round, i, S4Sub(t, round)(i, v));
    S4SubAt(t, round, i, v);
    S4SubAt(t, round, i, RoundSubstitution(inv, round + 1)(i, v));
    SliceInverted(inv.s4, t.s4, S4_SLICES, S4Slice(round * 16 + i), v);
  }

  lemma RoundSubstitutionInverts(inv: Inverses, t: Tables, round: nat)
    requires Invert(inv, t)
    ensures InverseSubs(RoundSubstitution(inv, round + 1), S4Sub(t, round))
  {
    var back, sub := RoundSubstitution(inv, round + 1), S4Sub(t, round);
    forall i: nat, v {:trigger sub(i, v)} | i < BLOCK ensures back(i, sub(i, v)) == v {
      RoundByteInverts(inv, t, round, i, v);
    }
    forall i: nat, v {:trigger back(i, v)} | i < BLOCK ensures sub(i, back(i, v)) == v {
      RoundByteInverts(inv, t, round, i, v);
    }
  }

  lemma MixIsTheSum(t: Tables)
    ensures SameColumns(MixOf(t), ColumnSum(t))
  {
  }

  lemma MixInverts(inv: Inverses, t: Tables)
    requires Invert(inv, t)
    ensures InverseMaps(inv.mix, MixOf(t))
  {
    MixIsTheSum(t);
    InvertedColumns(inv.mix, MixOf(t), ColumnSum(t));
  }

  lemma RoundUndone(inv: Inverses, t: Tables, key: Block, round: nat, b: Block)
    requires Invert(inv, t)
    ensures Round(t, key, ForwardRound(inv, key, b, round + 1), round) == b
    ensures ForwardRound(inv, key, Round(t, key, b, round), round + 1) == b
  {
    var sub, back := S4Sub(t, round), RoundSubstitution(inv, round + 1);
    RoundSubstitutionInverts(inv, t, round);
    MixInverts(inv, t);
    var shifted := ShiftRows(SubBytes(back, b));
    XorTwice(MixEachColumn(inv.mix, shifted), key);
    ColumnsUndone(inv.mix, MixOf(t), shifted);
    ShiftSubUndone(back, sub, b);
    var columns := Columns(MixOf(t), Xor(b, key));
    ShiftSubUndone(back, sub, columns);
    ColumnsUndone(inv.mix, MixOf(t), Xor(b, key));
    XorTwice(b, key);
  }

  lemma StepsReverse(inv: Inverses, t: Tables, k: Schedule)
    requires Invert(inv, t)
    ensures Reverses(RoundStep(t, k), ForwardStep(inv, k), |k| - 2)
    ensures Reverses(ForwardStep(inv, k), RoundStep(t, k), |k| - 2)
  {
    forall l: nat, b: Block | l < |k| - 2
      ensures RoundStep(t, k)(|k| - 2 - 1 - l, ForwardStep(inv, k)(l, b)) == b
    {
      ForwardStepAt(inv, k, l, b);
      RoundStepAt(t, k, 8 - l, ForwardStep(inv, k)(l, b));
      RoundUndone(inv, t, k[l + 1], l, b);
    }
    forall l: nat, b: Block | l < |k| - 2
      ensures ForwardStep(inv, k)(|k| - 2 - 1 - l, RoundStep(t, k)(l, b)) == b
    {
      RoundStepAt(t, k, l, b);
      ForwardStepAt(inv, k, 8 - l, RoundStep(t, k)(l, b));
      RoundUndone(inv, t, k[9 - l], 8 - l, b);
    }
  }

  /** For every schedule and all tables that can be inverted, the program's cipher undoes the forward
      cipher ... */
  lemma CipherBlockDeciphers(inv: Inverses, t: Tables, k: Schedule, plain: Block)
    requires Invert(inv, t)
    ensures CipherBlock(t, k, Enciphered(inv, k, plain)) == plain
  {
    var x := Iterate(ForwardStep(inv, k), Xor(plain, k[0]), |k| - 2);
    var last := ShiftRows(SubBytes(LastSubstitution(inv), x));
    XorTwice(last, k[10]);
    LastSubstitutionInverts(inv, t);
    ShiftSubUndone(LastSubstitution(inv), S3Sub(t), x);
    StepsReverse(inv, t, k);
    RoundsUndone(RoundStep(t, k), ForwardStep(inv, k), Xor(plain, k[0]), |k| - 2);
    XorTwice(plain, k[0]);
  }

  /** ... and the forward cipher undoes it. */
  lemma CipherBlockIsUndone(inv: Inverses, t: Tables, k: Schedule, b: Block)
    requires Invert(inv, t)
    ensures Enciphered(inv, k, CipherBlock(t, k, b)) == b
  {
    var first := ShiftSub(Xor(b, k[10]), S3Sub(t));
    var x := Iterate(RoundStep(t, k), first, |k| - 2);
    XorTwice(x, k[0]);
    StepsReverse(inv, t, k);
    RoundsUndone(ForwardStep(inv, k), RoundStep(t, k), first, |k| - 2);
    LastSubstitutionInverts(inv, t);
    ShiftSubUndone(LastSubstitution(inv), S3Sub(t), Xor(b, k[10]));
    XorTwice(b, k[10]);
  }

  // ---- Injective tables have inverses ----

  lemma InvertibleTablesHaveInverses(t: Tables)
    requires Invertible(t)
    ensures exists inv :: Invert(inv, t)
  {
    SlicesBackInverts(t.s3, S3_SLICES);
    SlicesBackInverts(t.s4, S4_SLICES);
    assert forall v, w :: MixOf(t)(v) == MixOf(t)(w) ==> Mix(t, v) == Mix(t, w);
    MixIsTheSum(t);
    WordBackInverts(MixOf(t));
    InverseOfColumns(WordBack(MixOf(t)), MixOf(t), ColumnSum(t));
    assert Invert(Inverses(SlicesBack(t.s3), SlicesBack(t.s4), WordBack(MixOf(t))), t);
  }
}
