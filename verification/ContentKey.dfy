/** How FairPlay recovers a stream's key: two chunks of the message, a key schedule and two fixed pads. */
module ContentKey {
  import opened Words
  import opened Blocks
  import opened InverseCipher
  import opened KeySchedule

  const MESSAGE := 72

  datatype Pads = Pads(x: Block, z: Block)

  function Chunk(cipherText: seq<Byte>, at: nat): Block
    requires at + BLOCK <= |cipherText|
  {
    cipherText[at..at + BLOCK]
  }

  /** The key that chunks 1 and 2 stand for under a schedule. */
  function Unwrapped(t: Tables, k: Schedule, pads: Pads, chunk1: Block, chunk2: Block): Block {
    Xor(Xor(Xor(CipherBlock(t, k, Xor(chunk2, pads.z)), chunk1), pads.x), pads.z)
  }

  function ScheduleOf(kt: KeyTables, sapKey: Block): Schedule {
    seq(ROUND_KEYS, round requires 0 <= round < ROUND_KEYS => RowOf(kt, sapKey, round))
  }

  /** The message carries `key`: its bytes 56 to 71 wrap it under a schedule that follows FIPS 197, with its
      bytes 16 to 31 as first chunk. */
  ghost predicate Wraps(inv: Inverses, kt: KeyTables, pads: Pads, sapKey: Block, cipherText: seq<Byte>, key: Block)
    requires |cipherText| >= MESSAGE
  {
    exists k: Schedule ::
      && FipsSchedule(kt, sapKey, k)
      && cipherText[56..72] == Wrapped(inv, k, pads, cipherText[16..32], key)
  }

  method PlayfairDecrypt(t: Tables, kt: KeyTables, pads: Pads, sapKey: Block, cipherText: seq<Byte>,
                         keyOut: array<Byte>)
    requires |cipherText| >= MESSAGE && keyOut.Length == BLOCK
    modifies keyOut
    ensures keyOut[..] == Unwrapped(t, ScheduleOf(kt, sapKey), pads, Chunk(cipherText, 16), Chunk(cipherText, 56))
    ensures forall inv, key :: Invert(inv, t) && Wraps(inv, kt, pads, sapKey, cipherText, key) ==> keyOut[..] == key
  {
    forall inv, key | Invert(inv, t) && Wraps(inv, kt, pads, sapKey, cipherText, key)
      ensures Unwrapped(t, ScheduleOf(kt, sapKey), pads, Chunk(cipherText, 16), Chunk(cipherText, 56)) == key
    {
      var k: Schedule :| FipsSchedule(kt, sapKey, k) &&
                         cipherText[56..72] == Wrapped(inv, k, pads, cipherText[16..32], key);
      RowsAreFips(kt, sapKey, ScheduleOf(kt, sapKey));
      OnlyOneSchedule(kt, sapKey, k, ScheduleOf(kt, sapKey));
      WrappedIsUnwrapped(inv, t, k, pads, Chunk(cipherText, 16), key);
    }
    var chunk1 := Chunk(cipherText, 16);
    var chunk2 := Chunk(cipherText, 56);
    var schedule := new Block[ROUND_KEYS](_ => chunk1);
    GenerateKeySchedule(kt, sapKey, schedule);
    assert schedule[..] == ScheduleOf(kt, sapKey);
    var block := new Byte[BLOCK](_ => 0);
    XorBlocks(chunk2, pads.z, block);
    Cycle(t, block, schedule[..]);
    XorBlocks(block[..], chunk1, keyOut);
    XorBlocks(keyOut[..], pads.x, keyOut);
    XorBlocks(keyOut[..], pads.z, keyOut);
  }

  /** With the rest of the message fixed, every key comes from exactly one second chunk. */
  lemma SecondChunkIsDetermined(t: Tables, k: Schedule, pads: Pads, chunk1: Block, key: Block)
    requires Invertible(t)
    ensures exists chunk2: Block :: Unwrapped(t, k, pads, chunk1, chunk2) == key
    ensures forall b: Block, c: Block ::
              Unwrapped(t, k, pads, chunk1, b) == Unwrapped(t, k, pads, chunk1, c) ==> b == c
  {
    forall b: Block, c: Block | Unwrapped(t, k, pads, chunk1, b) == Unwrapped(t, k, pads, chunk1, c)
      ensures b == c
    {
      UnwrappedIsInjective(t, k, pads, chunk1, b, c);
    }
    InjectiveMapsReachEverything((b: Block) => Unwrapped(t, k, pads, chunk1, b), key);
  }

  lemma UnwrappedIsInjective(t: Tables, k: Schedule, pads: Pads, chunk1: Block, b: Block, c: Block)
    requires Invertible(t) && Unwrapped(t, k, pads, chunk1, b) == Unwrapped(t, k, pads, chunk1, c)
    ensures b == c
  {
    var b1, c1 := CipherBlock(t, k, Xor(b, pads.z)), CipherBlock(t, k, Xor(c, pads.z));
    XorCancels(Xor(Xor(b1, chunk1), pads.x), Xor(Xor(c1, chunk1), pads.x), pads.z);
    XorCancels(Xor(b1, chunk1), Xor(c1, chunk1), pads.x);
    XorCancels(b1, c1, chunk1);
    CycleIsInjective(t, k, Xor(b, pads.z), Xor(c, pads.z));
    XorCancels(b, c, pads.z);
  }

  /** The second chunk that carries a key: pads and first chunk added, and the forward cipher. */
  function Wrapped(inv: Inverses, k: Schedule, pads: Pads, chunk1: Block, key: Block): Block {
    Xor(Enciphered(inv, k, Xor(Xor(Xor(key, pads.x), pads.z), chunk1)), pads.z)
  }

  /** What was wrapped is what comes out. */
  lemma WrappedIsUnwrapped(inv: Inverses, t: Tables, k: Schedule, pads: Pads, chunk1: Block, key: Block)
    requires Invert(inv, t)
    ensures Unwrapped(t, k, pads, chunk1, Wrapped(inv, k, pads, chunk1, key)) == key
  {
    var masked := Xor(Xor(Xor(key, pads.x), pads.z), chunk1);
    XorTwice(Enciphered(inv, k, masked), pads.z);
    CipherBlockDeciphers(inv, t, k, masked);
    Unmasked(key, chunk1, pads);
  }

  lemma Unmasked(key: Block, chunk1: Block, pads: Pads)
    ensures Xor(Xor(Xor(Xor(Xor(Xor(key, pads.x), pads.z), chunk1), chunk1), pads.x), pads.z) == key
  {
    forall i | 0 <= i < BLOCK
      ensures Xor(Xor(Xor(Xor(Xor(Xor(key, pads.x), pads.z), chunk1), chunk1), pads.x), pads.z)[i] == key[i]
    {
      UnmaskedByte(key[i], chunk1[i], pads.x[i], pads.z[i]);
    }
  }

  lemma UnmaskedByte(b: Byte, c: Byte, x: Byte, z: Byte)
    ensures (((((b ^ x) ^ z) ^ c) ^ c) ^ x) ^ z == b
  {
  }

  /** Changing the first chunk changes the key by the same difference. */
  lemma FirstChunkShiftsTheKey(t: Tables, k: Schedule, pads: Pads, chunk1: Block, chunk1': Block, chunk2: Block)
    ensures Unwrapped(t, k, pads, chunk1', chunk2) ==
            Xor(Unwrapped(t, k, pads, chunk1, chunk2), Xor(chunk1, chunk1'))
  {
    var b := CipherBlock(t, k, Xor(chunk2, pads.z));
    ShiftThroughPads(b, chunk1, chunk1', pads);
  }

  lemma ShiftThroughPads(b: Block, c: Block, c': Block, pads: Pads)
    ensures Xor(Xor(Xor(b, c'), pads.x), pads.z) == Xor(Xor(Xor(Xor(b, c), pads.x), pads.z), Xor(c, c'))
  {
    forall i | 0 <= i < BLOCK
      ensures Xor(Xor(Xor(b, c'), pads.x), pads.z)[i] == Xor(Xor(Xor(Xor(b, c), pads.x), pads.z), Xor(c, c'))[i]
    {
      ShiftByte(b[i], c[i], c'[i], pads.x[i], pads.z[i]);
    }
  }

  lemma ShiftByte(b: Byte, c: Byte, c': Byte, x: Byte, z: Byte)
    ensures ((b ^ c') ^ x) ^ z == (((b ^ c) ^ x) ^ z) ^ (c ^ c')
  {
  }
}
