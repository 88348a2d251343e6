/** `decrypt_message`: 128 bytes of the handshake message, block by block, in an order that depends on
    the mode. It is cipher block chaining decryption (section 6.2 of NIST SP 800-38A) in every mode. */
module MessageCbc {
  import opened Words
  import opened Blocks
  import opened Fips197

  datatype MessageTables = MessageTables(messageKey: seq<Byte>, messageIv: seq<Byte>,
                                         s2: seq<Slice>, s9: seq<map<Byte, Word>>, s10: seq<Slice>)

  const MODES := 4
  const S2_SLICES := 144
  const MESSAGE_BLOCKS := 8

  /** `MESSAGE_KEY` holds nine blocks and `MESSAGE_IV` one block for each mode. */
  ghost predicate Sized(t: MessageTables) {
    |t.messageKey| == MODES * 144 && |t.messageIv| == MODES * BLOCK
  }

  function KeyByte(t: MessageTables, mode: nat, i: nat): Byte {
    if mode * 144 + i < |t.messageKey| then t.messageKey[mode * 144 + i] else 0
  }

  function Iv(t: MessageTables, mode: nat): Block
    requires Sized(t) && mode < MODES
  {
    t.messageIv[mode * BLOCK..mode * BLOCK + BLOCK]
  }

  /** `s2_base(i) >> 8` */
  function S2Slice(i: nat): (k: nat)
    ensures k < S2_SLICES
  {
    97 * i % S2_SLICES
  }

  /** `mt`: substitution and key byte in one. */
  function Mt(t: MessageTables, mode: nat, i: nat, v: Byte): Byte {
    Look(SliceOf(t.s2, S2Slice(i)), v, 0) ^ KeyByte(t, mode, i)
  }

  /** `base` is `0x80 - 0x10 * j` in round `j`. */
  function MtSub(t: MessageTables, mode: nat, base: nat): Substitution {
    (i: nat, v: Byte) => Mt(t, mode, base + i, v)
  }

  /** `t10` */
  function T10(t: MessageTables, i: nat, v: Byte): Byte {
    Look(SliceOf(t.s10, i), v, 0)
  }

  function T10Sub(t: MessageTables): Substitution {
    (i: nat, v: Byte) => T10(t, i, v)
  }

  function S9(t: MessageTables, k: nat, v: Byte): Word {
    if k < |t.s9| then Look(t.s9[k], v, ZERO) else ZERO
  }

  function Mix(t: MessageTables, w: Word): Word {
    Xor32(Xor32(Xor32(S9(t, 0, w.b0), S9(t, 1, w.b1)), S9(t, 2, w.b2)), S9(t, 3, w.b3))
  }

  function MixOf(t: MessageTables): WordMap {
    (w: Word) => Mix(t, w)
  }

  function Round(t: MessageTables, mode: nat, b: Block, base: nat): Block {
    Columns(MixOf(t), ShiftSub(b, MtSub(t, mode, base)))
  }

  /** Round `j` works on the key block at `0x80 - 0x10 * j`; there are nine. */
  function RoundNumber(t: MessageTables, mode: nat, j: nat, b: Block): Block {
    if j < 9 then Round(t, mode, b, 0x80 - 0x10 * j) else b
  }

  function RoundStep(t: MessageTables, mode: nat): Step {
    (j: nat, b: Block) => RoundNumber(t, mode, j, b)
  }

  /** The block decryption of a mode: nine keyed rounds and a last permutation. */
  function DecipherBlock(t: MessageTables, mode: nat, b: Block, rounds: nat): Block {
    ShiftSub(Iterate(RoundStep(t, mode), b, rounds), T10Sub(t))
  }

  const ROUNDS := 9

  /** The four words are computed from the whole buffer and only then written back. */
  method MixColumns(buffer: array<Byte>, mix: WordMap)
    requires buffer.Length == BLOCK
    modifies buffer
    ensures buffer[..] == Columns(mix, old(buffer[..]))
  {
    ghost var b: Block := buffer[..];
    var w0 := mix(RdLe(buffer[..], 0));
    var w1 := mix(RdLe(buffer[..], 1));
    var w2 := mix(RdLe(buffer[..], 2));
    var w3 := mix(RdLe(buffer[..], 3));
    WrLe(buffer, 0, w0);
    WrLe(buffer, 1, w1);
    WrLe(buffer, 2, w2);
    WrLe(buffer, 3, w3);
    ColumnWord(mix, b, 0);
    ColumnWord(mix, b, 1);
    ColumnWord(mix, b, 2);
    ColumnWord(mix, b, 3);
    SameFourWords(buffer[..], Columns(mix, b));
  }

  lemma SameFourWords(b: Block, c: Block)
    requires RdLe(b, 0) == RdLe(c, 0) && RdLe(b, 1) == RdLe(c, 1)
    requires RdLe(b, 2) == RdLe(c, 2) && RdLe(b, 3) == RdLe(c, 3)
    ensures b == c
  {
    SameWords(b, c);
  }

  method DoRound(t: MessageTables, mode: nat, buffer: array<Byte>, base: nat)
    requires buffer.Length == BLOCK
    modifies buffer
    ensures buffer[..] == Round(t, mode, old(buffer[..]), base)
  {
    PermuteInPlace(buffer, MtSub(t, mode, base));
    MixColumns(buffer, MixOf(t));
  }

  lemma RoundStepAt(t: MessageTables, mode: nat, j: nat, b: Block)
    ensures RoundStep(t, mode)(j, b) == RoundNumber(t, mode, j, b)
  {
  }

  method StepRound(t: MessageTables, mode: nat, buffer: array<Byte>, j: nat)
    requires buffer.Length == BLOCK && j < 9
    modifies buffer
    ensures buffer[..] == RoundStep(t, mode)(j, old(buffer[..]))
  {
    RoundStepAt(t, mode, j, buffer[..]);
    DoRound(t, mode, buffer, 0x80 - 0x10 * j);
  }

  method Rounds(t: MessageTables, mode: nat, buffer: array<Byte>)
    requires buffer.Length == BLOCK
    modifies buffer
    ensures buffer[..] == Iterate(RoundStep(t, mode), old(buffer[..]), ROUNDS)
  {
    ghost var start: Block := buffer[..];
    for j := 0 to 9
      invariant buffer[..] == Iterate(RoundStep(t, mode), start, j)
    {
      StepRound(t, mode, buffer, j);
    }
  }

  type Cipher = Block -> Block

  /** `d` is the block decryption of this mode. The chaining only needs to know it by this name. */
  ghost predicate IsDecipherOf(d: Cipher, t: MessageTables, mode: nat) {
    forall b: Block {:trigger DecipherBlock(t, mode, b, ROUNDS)} :: d(b) == DecipherBlock(t, mode, b, ROUNDS)
  }

  method Decipher(t: MessageTables, mode: nat, buffer: array<Byte>, ghost d: Cipher)
    requires buffer.Length == BLOCK && IsDecipherOf(d, t, mode)
    modifies buffer
    ensures buffer[..] == d(old(buffer[..]))
  {
    ghost var start: Block := buffer[..];
    Rounds(t, mode, buffer);
    PermuteInPlace(buffer, T10Sub(t));
    assert buffer[..] == DecipherBlock(t, mode, start, ROUNDS);
  }

  function DecipherOf(t: MessageTables, mode: nat): Cipher {
    (b: Block) => DecipherBlock(t, mode, b, ROUNDS)
  }

  // ---- Chaining ----

  function BlockAt(s: seq<Byte>, n: nat): Block
    requires BLOCK * n + BLOCK <= |s|
  {
    s[BLOCK * n..BLOCK * n + BLOCK]
  }

  /** Cipher block chaining decryption of block `n` of the ciphertext `message[0x10..0x90]`. */
  function CbcBlock(d: Cipher, iv: Block, message: seq<Byte>, n: nat): Block
    requires n < MESSAGE_BLOCKS && |message| >= 0x90
  {
    Xor(d(BlockAt(message, n + 1)), Chained(iv, message, n))
  }

  /** The block handled in iteration `i`: mode 3 goes from the last one to the first. */
  function BlockOf(mode: nat, i: nat): nat
    requires i < MESSAGE_BLOCKS
  {
    if mode == 3 then 7 - i else i
  }

  /** Every block is handled exactly once. */
  lemma EveryBlockOnce(mode: nat, n: nat, i: nat)
    requires n < MESSAGE_BLOCKS && i < MESSAGE_BLOCKS
    ensures BlockOf(mode, BlockOf(mode, n)) == n
    ensures BlockOf(mode, i) == n <==> i == BlockOf(mode, n)
  {
  }

  /** One block overwritten, everything else kept. */
  method WriteBlock(out: array<Byte>, off: nat, value: Block, ghost n: nat)
    requires off == BLOCK * n && off + BLOCK <= out.Length
    modifies out
    ensures BlockAt(out[..], n) == value
    ensures forall k: nat :: k != n && BLOCK * k + BLOCK <= out.Length ==>
              BlockAt(out[..], k) == BlockAt(old(out[..]), k)
    ensures forall j :: BLOCK * n + BLOCK <= j < out.Length ==> out[j] == old(out[j])
  {
    forall j | 0 <= j < BLOCK {
      out[off + j] := value[j];
    }
    forall k: nat | k != n && BLOCK * k + BLOCK <= out.Length
      ensures BlockAt(out[..], k) == BlockAt(old(out[..]), k)
    {
      forall j | 0 <= j < BLOCK
        ensures BlockAt(out[..], k)[j] == BlockAt(old(out[..]), k)[j]
      {
      }
    }
  }

  method LoadBlock(message: seq<Byte>, mode: nat, i: nat, buffer: array<Byte>)
    requires |message| >= 0x90 && i < MESSAGE_BLOCKS && buffer.Length == BLOCK
    modifies buffer
    ensures buffer[..] == BlockAt(message, BlockOf(mode, i) + 1)
  {
    for j := 0 to BLOCK
      invariant forall k :: 0 <= k < j ==> buffer[k] == message[BLOCK * (BlockOf(mode, i) + 1) + k]
    {
      buffer[j] := if mode == 3 then message[0x80 - 0x10 * i + j] else message[0x10 * (i + 1) + j];
    }
  }

  /** What a deciphered block is combined with. */
  function Chained(iv: Block, message: seq<Byte>, n: nat): Block
    requires n < MESSAGE_BLOCKS && |message| >= 0x90
  {
    if n == 0 then iv else BlockAt(message, n)
  }

  method Chain(iv: Block, mode: nat, message: seq<Byte>, i: nat, buffer: Block, out: array<Byte>) returns (off: nat)
    requires mode < MODES && |message| >= 0x90 && i < MESSAGE_BLOCKS && out.Length == BLOCK
    modifies out
    ensures off == BLOCK * BlockOf(mode, i)
    ensures out[..] == Xor(buffer, Chained(iv, message, BlockOf(mode, i)))
  {
    if mode == 2 || mode == 1 || mode == 0 {
      off := 0x10 * i;
      if i > 0 {
        XorBlocks(buffer, message[0x10 * i..0x10 * i + 16], out);
      } else {
        XorBlocks(buffer, iv, out);
      }
    } else if i < 7 {
      off := 0x70 - 0x10 * i;
      XorBlocks(buffer, message[off..off + 16], out);
    } else {
      off := 0x70 - 0x10 * i;
      XorBlocks(buffer, iv, out);
    }
  }

  /** The iteration for one block: load, decipher, and combine with the block before it. */
  method DecryptBlock(t: MessageTables, mode: nat, message: seq<Byte>, i: nat, buffer: array<Byte>, out: array<Byte>,
                      ghost d: Cipher)
    returns (off: nat)
    requires IsDecipherOf(d, t, mode)
    requires Sized(t) && mode < MODES && |message| >= 0x90 && i < MESSAGE_BLOCKS
    requires buffer.Length == BLOCK && out.Length == BLOCK && buffer != out
    modifies buffer, out
    ensures off == BLOCK * BlockOf(mode, i)
    ensures out[..] == CbcBlock(d, Iv(t, mode), message, BlockOf(mode, i))
  {
    LoadBlock(message, mode, i, buffer);
    Decipher(t, mode, buffer, d);
    off := Chain(Iv(t, mode), mode, message, i, buffer[..], out);
  }

  /** One iteration of the outer loop, output included. */
  method DecryptInto(t: MessageTables, mode: nat, message: seq<Byte>, i: nat, decrypted: array<Byte>, ghost d: Cipher)
    requires IsDecipherOf(d, t, mode)
    requires Sized(t) && mode < MODES && |message| >= 0x90 && i < MESSAGE_BLOCKS && decrypted.Length >= 0x80
    requires Decrypted(d, Iv(t, mode), mode, message, decrypted[..], i)
    modifies decrypted
    ensures Decrypted(d, Iv(t, mode), mode, message, decrypted[..], i + 1)
    ensures forall j :: 0x80 <= j < decrypted.Length ==> decrypted[j] == old(decrypted[j])
  {
    var buffer, out := new Byte[BLOCK](_ => 0), new Byte[BLOCK](_ => 0);
    var off := DecryptBlock(t, mode, message, i, buffer, out, d);
    ghost var before := decrypted[..];
    WriteBlock(decrypted, off, out[..], BlockOf(mode, i));
    OneMoreDecrypted(d, Iv(t, mode), mode, message, before, decrypted[..], i);
  }

  lemma OneMoreDecrypted(d: Cipher, iv: Block, mode: nat, message: seq<Byte>, before: seq<Byte>, after: seq<Byte>,
                         i: nat)
    requires |message| >= 0x90 && |before| == |after| >= 0x80 && i < MESSAGE_BLOCKS
    requires Decrypted(d, iv, mode, message, before, i)
    requires BlockAt(after, BlockOf(mode, i)) == CbcBlock(d, iv, message, BlockOf(mode, i))
    requires forall k: nat :: k != BlockOf(mode, i) && BLOCK * k + BLOCK <= |after| ==>
               BlockAt(after, k) == BlockAt(before, k)
    ensures Decrypted(d, iv, mode, message, after, i + 1)
  {
    forall n: nat | n < MESSAGE_BLOCKS && BlockOf(mode, n) < i + 1
      ensures BlockAt(after, n) == CbcBlock(d, iv, message, n)
    {
      EveryBlockOnce(mode, n, i);
    }
  }

  /** Whatever the mode and its order, the result is the chaining decryption of all eight blocks. The
      mode is byte 12 of the message; a mode the tables have no key for makes the program stop at an
      index out of range, so the caller must send one of the four. */
  method DecryptMessage(t: MessageTables, message: seq<Byte>, decrypted: array<Byte>)
    requires Sized(t) && |message| >= 0x90 && message[12] < 4
    requires decrypted.Length >= 0x80
    modifies decrypted
    ensures HoldsCbc(DecipherOf(t, ModeOf(message)), Iv(t, ModeOf(message)), message, decrypted[..])
    ensures forall j :: 0x80 <= j < decrypted.Length ==> decrypted[j] == old(decrypted[j])
    ensures forall inv, plain, mode: nat ::
              mode < MODES && Invert(inv, t) && Encrypts(inv, t, plain, message, mode) ==>
                HoldsBlocks(decrypted[..], plain)
  {
    var mode := ModeOf(message);
    ghost var d, iv := DecipherOf(t, mode), Iv(t, mode);
    for i := 0 to MESSAGE_BLOCKS
      invariant Decrypted(d, iv, mode, message, decrypted[..], i)
      invariant forall j :: 0x80 <= j < decrypted.Length ==> decrypted[j] == old(decrypted[j])
    {
      DecryptInto(t, mode, message, i, decrypted, d);
    }
    forall n: nat | n < MESSAGE_BLOCKS ensures BlockOf(mode, n) < MESSAGE_BLOCKS {
      EveryBlockOnce(mode, n, n);
    }
    forall inv, plain, m: nat | m < MODES && Invert(inv, t) && Encrypts(inv, t, plain, message, m)
      ensures HoldsBlocks(decrypted[..], plain)
    {
      PlainIsHeld(inv, t, plain, message, m, decrypted[..]);
    }
  }

  /** All eight blocks are the chaining decryption of the message's. */
  ghost predicate HoldsCbc(d: Cipher, iv: Block, message: seq<Byte>, s: seq<Byte>) {
    && |message| >= 0x90 && |s| >= 0x80
    && forall n: nat :: n < MESSAGE_BLOCKS ==> BlockAt(s, n) == CbcBlock(d, iv, message, n)
  }

  /** The blocks one after the other. */
  ghost predicate HoldsBlocks(s: seq<Byte>, blocks: seq<Block>) {
    |s| >= 16 * |blocks| && forall n :: 0 <= n < |blocks| ==> s[16 * n..16 * n + 16] == blocks[n]
  }

  /** The blocks of the first `done` iterations are decrypted. */
  ghost predicate Decrypted(d: Cipher, iv: Block, mode: nat, message: seq<Byte>, s: seq<Byte>, done: nat)
    requires |message| >= 0x90 && |s| >= 0x80
  {
    forall n: nat :: n < MESSAGE_BLOCKS && BlockOf(mode, n) < done ==> BlockAt(s, n) == CbcBlock(d, iv, message, n)
  }

  function ModeOf(message: seq<Byte>): (mode: nat)
    requires |message| >= 0x90 && message[12] < 4
    ensures mode < MODES
  {
    if message[12] == 0 then 0 else if message[12] == 1 then 1 else if message[12] == 2 then 2 else 3
  }

  // ---- The inverse direction ----

  /** Cipher block chaining encryption with the block encryption `e`. */
  function CbcEncrypt(e: Cipher, iv: Block, plain: seq<Block>): (cipher: seq<Block>)
    ensures |cipher| == |plain|
    decreases |plain|
  {
    if plain == [] then []
    else
      var c := e(Xor(plain[0], iv));
      [c] + CbcEncrypt(e, c, plain[1..])
  }

  lemma {:induction false} CbcEncryptAt(e: Cipher, iv: Block, plain: seq<Block>, n: nat)
    requires n < |plain|
    ensures var cipher := CbcEncrypt(e, iv, plain);
            cipher[n] == e(Xor(plain[n], if n == 0 then iv else cipher[n - 1]))
    decreases n
  {
    if n == 0 {
    } else {
      var c := e(Xor(plain[0], iv));
      CbcEncryptAt(e, c, plain[1..], n - 1);
    }
  }

  /** For every block cipher `e` with inverse `d`: what was chained with `e` is what comes out. */
  lemma ChainingInvertsEncryption(e: Cipher, d: Cipher, iv: Block, plain: seq<Block>, message: seq<Byte>, n: nat)
    requires forall b: Block :: d(e(b)) == b
    requires |plain| == MESSAGE_BLOCKS && |message| >= 0x90 && n < MESSAGE_BLOCKS
    requires forall k: nat :: k < MESSAGE_BLOCKS ==> BlockAt(message, k + 1) == CbcEncrypt(e, iv, plain)[k]
    ensures CbcBlock(d, iv, message, n) == plain[n]
  {
    CbcEncryptAt(e, iv, plain, n);
    if n > 0 {
      assert BlockAt(message, n - 1 + 1) == CbcEncrypt(e, iv, plain)[n - 1];
    }
    XorTwice(plain[n], Chained(iv, message, n));
  }

  /** Inverses of the slices of two tables and of the column map. */
  datatype Inverses = Inverses(s2: Substitution, s10: Substitution, mix: WordMap)

  function ColumnSum(t: MessageTables): ColumnFunction
    requires |t.s9| >= 4
  {
    (b0: Byte, b1: Byte, b2: Byte, b3: Byte) =>
      Xor32(Xor32(Xor32(Look(t.s9[0], b0, ZERO), Look(t.s9[1], b1, ZERO)), Look(t.s9[2], b2, ZERO)),
            Look(t.s9[3], b3, ZERO))
  }

  ghost predicate Invert(inv: Inverses, t: MessageTables) {
    && InvertSlices(inv.s2, t.s2, S2_SLICES) && InvertSlices(inv.s10, t.s10, BLOCK)
    && |t.s9| >= 4 && InvertColumns(inv.mix, ColumnSum(t))
  }

  /** The nine key blocks of a mode in ascending order. */
  function RoundKey(t: MessageTables, mode: nat, r: nat): Block {
    var from := 144 * mode + 16 * r;
    if from + 16 <= |t.messageKey| then t.messageKey[from..from + 16] else seq(BLOCK, _ => 0)
  }

  /** Round `r` takes the slices from `16 * r` on, in steps of 97. */
  function RoundSubstitution(inv: Inverses, r: nat): Substitution {
    (i: nat, v: Byte) => inv.s2(97 * (16 * r + i) % 144, v)
  }

  function ForwardRound(inv: Inverses, t: MessageTables, mode: nat, r: nat, b: Block): Block {
    ShiftRows(SubBytes(RoundSubstitution(inv, r), Xor(MixEachColumn(inv.mix, b), RoundKey(t, mode, r))))
  }

  function ForwardStep(inv: Inverses, t: MessageTables, mode: nat): Step {
    (r: nat, b: Block) => if r < 9 then ForwardRound(inv, t, mode, r, b) else b
  }

  lemma ForwardStepAt(inv: Inverses, t: MessageTables, mode: nat, r: nat, b: Block)
    ensures ForwardStep(inv, t, mode)(r, b) == if r < 9 then ForwardRound(inv, t, mode, r, b) else b
  {
  }

  /** The block encryption of a mode: a first substitution with shifted rows, and nine rounds of column map,
      round key, substitution and shifted rows, with the key blocks in ascending order. */
  function EncipherBlock(inv: Inverses, t: MessageTables, mode: nat, b: Block, rounds: nat): Block {
    Iterate(ForwardStep(inv, t, mode), ShiftRows(SubBytes(inv.s10, b)), rounds)
  }

  function EncipherOf(inv: Inverses, t: MessageTables, mode: nat): Cipher {
    (b: Block) => EncipherBlock(inv, t, mode, b, ROUNDS)
  }

  lemma T10Inverts(inv: Inverses, t: MessageTables)
    requires InvertSlices(inv.s10, t.s10, BLOCK)
    ensures InverseSubs(inv.s10, T10Sub(t))
  {
    var back, sub := inv.s10, T10Sub(t);
    forall i: nat, v {:trigger sub(i, v)} | i < BLOCK ensures back(i, sub(i, v)) == v {
      assert back(i, Look(t.s10[i], v, 0)) == v;
    }
    forall i: nat, v {:trigger back(i, v)} | i < BLOCK ensures sub(i, back(i, v)) == v {
      assert Look(t.s10[i], back(i, v), 0) == v;
    }
  }

  /** The inverse of substitution and key byte in one. */
  function MtBack(inv: Inverses, t: MessageTables, mode: nat, r: nat): Substitution {
    (i: nat, v: Byte) => inv.s2(S2Slice(16 * r + i), v ^ KeyByte(t, mode, 16 * r + i))
  }

  lemma MtUndone(inv: Inverses, t: MessageTables, mode: nat, n: nat, v: Byte)
    requires InvertSlices(inv.s2, t.s2, S2_SLICES)
    ensures inv.s2(S2Slice(n), Mt(t, mode, n, v) ^ KeyByte(t, mode, n)) == v
    ensures Mt(t, mode, n, inv.s2(S2Slice(n), v ^ KeyByte(t, mode, n))) == v
  {
    var s, key := SliceOf(t.s2, S2Slice(n)), KeyByte(t, mode, n);
    SliceInverted(inv.s2, t.s2, S2_SLICES, S2Slice(n), v);
    SliceInverted(inv.s2, t.s2, S2_SLICES, S2Slice(n), v ^ key);
    XorByteTwice(Look(s, v, 0), key);
    XorByteTwice(v, key);
  }

  lemma MtSubAt(t: MessageTables, mode: nat, r: nat, i: nat, v: Byte)
    ensures MtSub(t, mode, 16 * r)(i, v) == Mt(t, mode, 16 * r + i, v)
  {
  }

  lemma MtBackAt(inv: Inverses, t: MessageTables, mode: nat, r: nat, i: nat, v: Byte)
    ensures MtBack(inv, t, mode, r)(i, v) == inv.s2(S2Slice(16 * r + i), v ^ KeyByte(t, mode, 16 * r + i))
  {
  }

  lemma MtInverts(inv: Inverses, t: MessageTables, mode: nat, r: nat)
    requires Invert(inv, t)
    ensures InverseSubs(MtBack(inv, t, mode, r), MtSub(t, mode, 16 * r))
  {
    var back, sub := MtBack(inv, t, mode, r), MtSub(t, mode, 16 * r);
    forall i: nat, v {:trigger sub(i, v)} | i < BLOCK ensures back(i, sub(i, v)) == v {
      MtSubAt(t, mode, r, i, v);
      MtBackAt(inv, t, mode, r, i, sub(i, v));
      MtUndone(inv, t, mode, 16 * r + i, v);
    }
    forall i: nat, v {:trigger back(i, v)} | i < BLOCK ensures sub(i, back(i, v)) == v {
      MtBackAt(inv, t, mode, r, i, v);
      MtSubAt(t, mode, r, i, back(i, v));
      MtUndone(inv, t, mode, 16 * r + i, v);
    }
  }

  lemma RoundKeyByte(t: MessageTables, mode: nat, r: nat, i: nat)
    requires Sized(t) && mode < MODES && r < ROUNDS && i < BLOCK
    ensures RoundKey(t, mode, r)[i] == KeyByte(t, mode, 16 * r + i)
  {
  }

  lemma SubstitutionAt(inv: Inverses, r: nat, i: nat, v: Byte)
    ensures RoundSubstitution(inv, r)(i, v) == inv.s2(S2Slice(16 * r + i), v)
  {
  }

  lemma KeyThenSubstitution(inv: Inverses, t: MessageTables, mode: nat, r: nat, b: Block)
    requires Sized(t) && mode < MODES && r < ROUNDS
    ensures SubBytes(RoundSubstitution(inv, r), Xor(b, RoundKey(t, mode, r))) == SubBytes(MtBack(inv, t, mode, r), b)
  {
    var sub, back, keyed := RoundSubstitution(inv, r), MtBack(inv, t, mode, r), Xor(b, RoundKey(t, mode, r));
    forall i: nat | i < BLOCK ensures sub(i, keyed[i]) == back(i, b[i]) {
      RoundKeyByte(t, mode, r, i);
      SubstitutionAt(inv, r, i, keyed[i]);
    }
    SameSubstitution(sub, keyed, back, b);
  }

  lemma MixIsTheSum(t: MessageTables)
    requires |t.s9| >= 4
    ensures SameColumns(MixOf(t), ColumnSum(t))
  {
  }

  lemma MixInverts(inv: Inverses, t: MessageTables)
    requires Invert(inv, t)
    ensures InverseMaps(inv.mix, MixOf(t))
  {
    MixIsTheSum(t);
    InvertedColumns(inv.mix, MixOf(t), ColumnSum(t));
  }

  lemma RoundUndone(inv: Inverses, t: MessageTables, mode: nat, r: nat, b: Block)
    requires Invert(inv, t) && Sized(t) && mode < MODES && r < ROUNDS
    ensures Round(t, mode, ForwardRound(inv, t, mode, r, b), 16 * r) == b
  {
    var mixed := MixEachColumn(inv.mix, b);
    KeyThenSubstitution(inv, t, mode, r, mixed);
    MtInverts(inv, t, mode, r);
    ShiftSubUndone(MtBack(inv, t, mode, r), MtSub(t, mode, 16 * r), mixed);
    MixInverts(inv, t);
    ColumnsUndone(inv.mix, MixOf(t), b);
  }

  lemma StepUndone(inv: Inverses, t: MessageTables, mode: nat, r: nat, b: Block)
    requires Invert(inv, t) && Sized(t) && mode < MODES && r < ROUNDS
    ensures RoundStep(t, mode)(ROUNDS - 1 - r, ForwardStep(inv, t, mode)(r, b)) == b
  {
    ForwardStepAt(inv, t, mode, r, b);
    LaterRound(t, mode, r, ForwardRound(inv, t, mode, r, b));
    RoundUndone(inv, t, mode, r, b);
  }

  lemma LaterRound(t: MessageTables, mode: nat, r: nat, c: Block)
    requires r < ROUNDS
    ensures RoundStep(t, mode)(ROUNDS - 1 - r, c) == Round(t, mode, c, 16 * r)
  {
    RoundStepAt(t, mode, ROUNDS - 1 - r, c);
    assert 0x80 - 0x10 * (ROUNDS - 1 - r) == 16 * r;
  }

  lemma StepsReverse(inv: Inverses, t: MessageTables, mode: nat)
    requires Invert(inv, t) && Sized(t) && mode < MODES
    ensures Reverses(RoundStep(t, mode), ForwardStep(inv, t, mode), ROUNDS)
  {
    forall r: nat, b: Block | r < ROUNDS
      ensures RoundStep(t, mode)(ROUNDS - 1 - r, ForwardStep(inv, t, mode)(r, b)) == b
    {
      StepUndone(inv, t, mode, r, b);
    }
  }

  /** For all tables that can be inverted the block decryption of every mode undoes its encryption. */
  lemma DecipherUndoesEncipher(inv: Inverses, t: MessageTables, mode: nat, b: Block)
    requires Invert(inv, t) && Sized(t) && mode < MODES
    ensures DecipherOf(t, mode)(EncipherOf(inv, t, mode)(b)) == b
  {
    var first := ShiftRows(SubBytes(inv.s10, b));
    StepsReverse(inv, t, mode);
    RoundsUndone(RoundStep(t, mode), ForwardStep(inv, t, mode), first, ROUNDS);
    T10Inverts(inv, t);
    ShiftSubUndone(inv.s10, T10Sub(t), b);
  }

  /** The message holds the blocks of `plain`, encrypted with `e` and chained. */
  ghost predicate HoldsChain(e: Cipher, iv: Block, plain: seq<Block>, message: seq<Byte>) {
    && |message| >= 0x90 && |plain| == 8
    && forall n :: 0 <= n < 8 ==> message[16 + 16 * n..32 + 16 * n] == CbcEncrypt(e, iv, plain)[n]
  }

  function ModeIv(t: MessageTables, mode: nat): Block
    requires Sized(t) && mode < MODES
  {
    t.messageIv[16 * mode..16 * mode + 16]
  }

  /** The blocks of `plain` are encrypted in the mode that byte 12 of the message names. */
  ghost predicate Encrypts(inv: Inverses, t: MessageTables, plain: seq<Block>, message: seq<Byte>, mode: nat)
    requires Sized(t) && mode < MODES && |message| >= 0x90
  {
    message[12] == mode as Byte && HoldsChain(EncipherOf(inv, t, mode), ModeIv(t, mode), plain, message)
  }

  ghost predicate UndoneBy(d: Cipher, e: Cipher) {
    forall b: Block :: d(e(b)) == b
  }

  lemma DecipherUndoesAll(inv: Inverses, t: MessageTables, mode: nat)
    requires Invert(inv, t) && Sized(t) && mode < MODES
    ensures UndoneBy(DecipherOf(t, mode), EncipherOf(inv, t, mode))
  {
    forall b: Block ensures DecipherOf(t, mode)(EncipherOf(inv, t, mode)(b)) == b {
      DecipherUndoesEncipher(inv, t, mode, b);
    }
  }

  lemma MessageBlock(message: seq<Byte>, k: nat)
    requires |message| >= 0x90 && k < MESSAGE_BLOCKS
    ensures BlockAt(message, k + 1) == message[16 + 16 * k..32 + 16 * k]
  {
  }

  lemma ModeIs(message: seq<Byte>, mode: nat)
    requires |message| >= 0x90 && mode < MODES && message[12] == mode as Byte
    ensures message[12] < 4 && ModeOf(message) == mode
  {
    assert mode == 0 || mode == 1 || mode == 2 || mode == 3;
  }

  lemma ChainedComesBack(e: Cipher, d: Cipher, iv: Block, plain: seq<Block>, message: seq<Byte>, n: nat)
    requires UndoneBy(d, e) && HoldsChain(e, iv, plain, message) && n < MESSAGE_BLOCKS
    ensures CbcBlock(d, iv, message, n) == plain[n]
  {
    forall k: nat | k < MESSAGE_BLOCKS ensures BlockAt(message, k + 1) == CbcEncrypt(e, iv, plain)[k] {
      MessageBlock(message, k);
    }
    ChainingInvertsEncryption(e, d, iv, plain, message, n);
  }

  lemma ChainIsHeld(e: Cipher, d: Cipher, iv: Block, plain: seq<Block>, message: seq<Byte>, s: seq<Byte>)
    requires UndoneBy(d, e) && HoldsChain(e, iv, plain, message) && HoldsCbc(d, iv, message, s)
    ensures HoldsBlocks(s, plain)
  {
    forall n: nat | n < 8 ensures s[16 * n..16 * n + 16] == plain[n] {
      ChainedComesBack(e, d, iv, plain, message, n);
      assert BlockAt(s, n) == s[16 * n..16 * n + 16];
    }
  }

  lemma SameIv(t: MessageTables, mode: nat)
    requires Sized(t) && mode < MODES
    ensures Iv(t, mode) == ModeIv(t, mode)
  {
  }

  /** What was encrypted is what the chaining decryption holds. */
  lemma PlainIsHeld(inv: Inverses, t: MessageTables, plain: seq<Block>, message: seq<Byte>, mode: nat, s: seq<Byte>)
    requires Invert(inv, t) && Sized(t) && mode < MODES && |message| >= 0x90 && message[12] < 4
    requires Encrypts(inv, t, plain, message, mode)
    requires HoldsCbc(DecipherOf(t, ModeOf(message)), Iv(t, ModeOf(message)), message, s)
    ensures HoldsBlocks(s, plain)
  {
    ModeIs(message, mode);
    SameIv(t, mode);
    DecipherUndoesAll(inv, t, mode);
    ChainIsHeld(EncipherOf(inv, t, mode), DecipherOf(t, mode), ModeIv(t, mode), plain, message, s);
  }

  // ---- Nothing is lost ----

  ghost predicate Invertible(t: MessageTables) {
    && SlicesInjective(t.s2, S2_SLICES) && SlicesInjective(t.s10, BLOCK)
    && forall v, w :: MixOf(t)(v) == MixOf(t)(w) ==> v == w
  }

  lemma FourColumnTables(t: MessageTables)
    ensures Invertible(t) ==> |t.s9| >= 4
  {
    if |t.s9| < 4 {
      assert MixOf(t)(Word(0, 0, 0, 0)) == MixOf(t)(Word(0, 0, 0, 1));
    }
  }

  lemma InvertibleTablesHaveInverses(t: MessageTables)
    requires Invertible(t)
    ensures exists inv :: Invert(inv, t)
  {
    SlicesBackInverts(t.s2, S2_SLICES);
    SlicesBackInverts(t.s10, BLOCK);
    FourColumnTables(t);
    MixIsTheSum(t);
    WordBackInverts(MixOf(t));
    InverseOfColumns(WordBack(MixOf(t)), MixOf(t), ColumnSum(t));
    assert Invert(Inverses(SlicesBack(t.s2), SlicesBack(t.s10), WordBack(MixOf(t))), t);
  }

  lemma MtIsInjective(t: MessageTables, mode: nat, i: nat, x: Byte, y: Byte)
    requires Invertible(t) && Mt(t, mode, i, x) == Mt(t, mode, i, y)
    ensures x == y
  {
    var s, k := SliceOf(t.s2, S2Slice(i)), KeyByte(t, mode, i);
    XorByteTwice(Look(s, x, 0), k);
    XorByteTwice(Look(s, y, 0), k);
    assert SliceInjective(s);
  }

  lemma SubstitutionsAreInjective(t: MessageTables, mode: nat, base: nat)
    requires Invertible(t)
    ensures Injective(MtSub(t, mode, base)) && Injective(T10Sub(t))
  {
    forall i: nat, x, y | i < BLOCK && MtSub(t, mode, base)(i, x) == MtSub(t, mode, base)(i, y)
      ensures x == y
    {
      MtIsInjective(t, mode, base + i, x, y);
    }
    forall i: nat, x, y | i < BLOCK && T10Sub(t)(i, x) == T10Sub(t)(i, y)
      ensures x == y
    {
      assert SliceInjective(SliceOf(t.s10, i));
    }
  }

  lemma RoundIsInjective(t: MessageTables, mode: nat, b: Block, c: Block, base: nat)
    requires Invertible(t) && Round(t, mode, b, base) == Round(t, mode, c, base)
    ensures b == c
  {
    var sub := MtSub(t, mode, base);
    ColumnsIsInjective(MixOf(t), ShiftSub(b, sub), ShiftSub(c, sub));
    SubstitutionsAreInjective(t, mode, base);
    ShiftSubIsInjective(b, c, sub);
  }

  lemma StepsAreInjective(t: MessageTables, mode: nat)
    requires Invertible(t)
    ensures forall j: nat, b: Block, c: Block :: RoundStep(t, mode)(j, b) == RoundStep(t, mode)(j, c) ==> b == c
  {
    forall j: nat, b: Block, c: Block | RoundStep(t, mode)(j, b) == RoundStep(t, mode)(j, c)
      ensures b == c
    {
      RoundStepAt(t, mode, j, b);
      RoundStepAt(t, mode, j, c);
      if j < 9 {
        RoundIsInjective(t, mode, b, c, 0x80 - 0x10 * j);
      }
    }
  }

  /** With injective tables the block decryption of every mode is injective ... */
  lemma DecipherIsInjective(t: MessageTables, mode: nat, b: Block, c: Block, rounds: nat)
    requires Invertible(t) && DecipherBlock(t, mode, b, rounds) == DecipherBlock(t, mode, c, rounds)
    ensures b == c
  {
    var b', c' := Iterate(RoundStep(t, mode), b, rounds), Iterate(RoundStep(t, mode), c, rounds);
    SubstitutionsAreInjective(t, mode, 0);
    ShiftSubIsInjective(b', c', T10Sub(t));
    StepsAreInjective(t, mode);
    IterateIsInjective(RoundStep(t, mode), b, c, rounds);
  }

  /** ... and so a bijection: every block is the decryption of exactly one. */
  lemma DecipherIsABijection(t: MessageTables, mode: nat, target: Block)
    requires Invertible(t)
    ensures forall b: Block, c: Block :: DecipherOf(t, mode)(b) == DecipherOf(t, mode)(c) ==> b == c
    ensures exists source: Block :: DecipherOf(t, mode)(source) == target
  {
    forall b: Block, c: Block | DecipherOf(t, mode)(b) == DecipherOf(t, mode)(c)
      ensures b == c
    {
      DecipherIsInjective(t, mode, b, c, ROUNDS);
    }
    InjectiveMapsReachEverything(DecipherOf(t, mode), target);
  }

  /** Two ciphertexts that decrypt to the same blocks are the same. */
  lemma {:induction false} SamePlainSameCipher(d: Cipher, iv: Block, message: seq<Byte>, other: seq<Byte>, n: nat)
    requires forall b: Block, c: Block :: d(b) == d(c) ==> b == c
    requires |message| >= 0x90 && |other| >= 0x90 && n < MESSAGE_BLOCKS
    requires forall k: nat :: k <= n ==> CbcBlock(d, iv, message, k) == CbcBlock(d, iv, other, k)
    ensures BlockAt(message, n + 1) == BlockAt(other, n + 1)
  {
    if n == 0 {
    } else {
      SamePlainSameCipher(d, iv, message, other, n - 1);
    }
    assert CbcBlock(d, iv, message, n) == CbcBlock(d, iv, other, n);
    XorCancels(d(BlockAt(message, n + 1)), d(BlockAt(other, n + 1)), Chained(iv, message, n));
  }
}
