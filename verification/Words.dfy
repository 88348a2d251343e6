/** Bytes and 32-bit words as the FairPlay cipher uses them. A word that is only loaded, stored,
    combined by exclusive or and taken apart into bytes is kept as its four little-endian bytes;
    `Value` is the `u32` it stands for, and the lemmas here show that the two views agree. */
module Words {
  type Byte = bv8

  datatype Word = Word(b0: Byte, b1: Byte, b2: Byte, b3: Byte)

  const ZERO := Word(0, 0, 0, 0)

  /** `u32::from_le_bytes` */
  function Value(w: Word): bv32 {
    (w.b0 as bv32) | ((w.b1 as bv32) << 8) | ((w.b2 as bv32) << 16) | ((w.b3 as bv32) << 24)
  }

  /** `u32::to_le_bytes` */
  function OfValue(v: bv32): Word {
    Word((v & 0xff) as Byte, ((v >> 8) & 0xff) as Byte, ((v >> 16) & 0xff) as Byte, ((v >> 24) & 0xff) as Byte)
  }

  function Xor32(v: Word, w: Word): Word {
    Word(v.b0 ^ w.b0, v.b1 ^ w.b1, v.b2 ^ w.b2, v.b3 ^ w.b3)
  }

  lemma ValueInverse(w: Word, v: bv32)
    ensures OfValue(Value(w)) == w && Value(OfValue(v)) == v
  {
  }

  lemma ValueOfXor(v: Word, w: Word)
    ensures Value(Xor32(v, w)) == Value(v) ^ Value(w)
  {
  }

  /** The number that four bytes make, the lowest first. */
  function LittleEndian(b0: Byte, b1: Byte, b2: Byte, b3: Byte): bv32 {
    (b0 as bv32) + 0x100 * (b1 as bv32) + 0x1_0000 * (b2 as bv32) + 0x100_0000 * (b3 as bv32)
  }

  lemma OrIsSum(x: bv32, y: bv32)
    requires x & y == 0
    ensures x | y == x + y
  {
  }

  lemma ShiftsAreProducts(b: Byte)
    ensures (b as bv32) << 8 == 0x100 * (b as bv32)
    ensures (b as bv32) << 16 == 0x1_0000 * (b as bv32)
    ensures (b as bv32) << 24 == 0x100_0000 * (b as bv32)
  {
  }

  lemma BytesApart(b0: Byte, b1: Byte, b2: Byte, b3: Byte)
    ensures (b0 as bv32) & ((b1 as bv32) << 8) == 0
    ensures ((b0 as bv32) | ((b1 as bv32) << 8)) & ((b2 as bv32) << 16) == 0
    ensures ((b0 as bv32) | ((b1 as bv32) << 8) | ((b2 as bv32) << 16)) & ((b3 as bv32) << 24) == 0
  {
  }

  lemma BytesMakeTheNumber(b0: Byte, b1: Byte, b2: Byte, b3: Byte)
    ensures (b0 as bv32) | ((b1 as bv32) << 8) | ((b2 as bv32) << 16) | ((b3 as bv32) << 24) ==
            (b0 as bv32) + 0x100 * (b1 as bv32) + 0x1_0000 * (b2 as bv32) + 0x100_0000 * (b3 as bv32)
  {
    BytesApart(b0, b1, b2, b3);
    ShiftsAreProducts(b1);
    ShiftsAreProducts(b2);
    ShiftsAreProducts(b3);
    OrIsSum(b0 as bv32, (b1 as bv32) << 8);
    OrIsSum((b0 as bv32) | ((b1 as bv32) << 8), (b2 as bv32) << 16);
    OrIsSum((b0 as bv32) | ((b1 as bv32) << 8) | ((b2 as bv32) << 16), (b3 as bv32) << 24);
  }

  lemma ValueIsLittleEndian(b0: Byte, b1: Byte, b2: Byte, b3: Byte)
    ensures Value(Word(b0, b1, b2, b3)) == LittleEndian(b0, b1, b2, b3)
  {
    BytesMakeTheNumber(b0, b1, b2, b3);
  }

  lemma XorByteTwice(b: Byte, c: Byte)
    ensures (b ^ c) ^ c == b && (b ^ c) ^ b == c
  {
  }

  /** `(v >> (8 * k)) & 0xff` */
  function ByteOf(w: Word, k: nat): Byte
    requires k < 4
  {
    if k == 0 then w.b0 else if k == 1 then w.b1 else if k == 2 then w.b2 else w.b3
  }

  function RdLe(buf: seq<Byte>, word: nat): Word
    requires 4 * word + 4 <= |buf|
  {
    var o := word * 4;
    Word(buf[o], buf[o + 1], buf[o + 2], buf[o + 3])
  }

  method WrLe(buf: array<Byte>, word: nat, v: Word)
    requires 4 * word + 4 <= buf.Length
    modifies buf
    ensures RdLe(buf[..], word) == v
    ensures forall i :: 0 <= i < buf.Length && !(4 * word <= i < 4 * word + 4) ==> buf[i] == old(buf[i])
    ensures forall j: nat :: 4 * j + 4 <= buf.Length && j != word ==> RdLe(buf[..], j) == RdLe(old(buf[..]), j)
  {
    var o := word * 4;
    buf[o], buf[o + 1], buf[o + 2], buf[o + 3] := v.b0, v.b1, v.b2, v.b3;
  }

  /** `rd_le` as the `u32` it returns */
  function ReadU32(buf: seq<Byte>, word: nat): bv32
    requires 4 * word + 4 <= |buf|
  {
    Value(RdLe(buf, word))
  }

  /** By its bytes in the buffer. */
  lemma ReadsLittleEndian(buf: seq<Byte>, word: nat)
    requires 4 * word + 4 <= |buf|
    ensures ReadU32(buf, word) ==
            LittleEndian(buf[4 * word], buf[4 * word + 1], buf[4 * word + 2], buf[4 * word + 3])
  {
    ValueIsLittleEndian(buf[4 * word], buf[4 * word + 1], buf[4 * word + 2], buf[4 * word + 3]);
  }

  /** `wr_le` of a `u32`: that word reads as the value afterwards, and no other word changes. */
  method WriteU32(buf: array<Byte>, word: nat, v: bv32)
    requires 4 * word + 4 <= buf.Length
    modifies buf
    ensures ReadU32(buf[..], word) == v && RdLe(buf[..], word) == OfValue(v)
    ensures forall i :: 0 <= i < buf.Length && !(4 * word <= i < 4 * word + 4) ==> buf[i] == old(buf[i])
    ensures forall j: nat :: 4 * j + 4 <= buf.Length && j != word ==> RdLe(buf[..], j) == RdLe(old(buf[..]), j)
  {
    ValueInverse(ZERO, v);
    WrLe(buf, word, OfValue(v));
  }

  /** What `wr_le(buf, word, rd_le(buf, word) ^ key)` stores is the exclusive or of the four bytes. */
  lemma XoredWord(buf: seq<Byte>, word: nat, key: bv32)
    requires 4 * word + 4 <= |buf|
    ensures OfValue(ReadU32(buf, word) ^ key) == Xor32(RdLe(buf, word), OfValue(key))
  {
    var w, k := RdLe(buf, word), OfValue(key);
    ValueInverse(w, key);
    ValueOfXor(w, k);
    ValueInverse(Xor32(w, k), key);
  }

  /** `wr_le(buf, word, rd_le(buf, word) ^ key)` */
  method XorU32(buf: array<Byte>, word: nat, key: Word)
    requires 4 * word + 4 <= buf.Length
    modifies buf
    ensures RdLe(buf[..], word) == Xor32(RdLe(old(buf[..]), word), key)
    ensures forall j: nat :: 4 * j + 4 <= buf.Length && j != word ==> RdLe(buf[..], j) == RdLe(old(buf[..]), j)
  {
    XoredWord(buf[..], word, Value(key));
    ValueInverse(key, 0);
    WriteU32(buf, word, ReadU32(buf[..], word) ^ Value(key));
  }

  /** A table of 256 entries read by a byte. A missing entry would read as `default`; the tables of
      the program have all of theirs. */
  function Look<V>(m: map<Byte, V>, b: Byte, default: V): V {
    if b in m then m[b] else default
  }

  /** A byte table in slices of 256. The code stores the slices one after the other and reads entry
      `slice * 256 + byte`; here a table is the sequence of its slices. */
  type Slice = map<Byte, Byte>

  function SliceOf(table: seq<Slice>, k: nat): Slice {
    if k < |table| then table[k] else map[]
  }

  ghost predicate SliceInjective(s: Slice) {
    forall x, y :: Look(s, x, 0) == Look(s, y, 0) ==> x == y
  }

  /** Each of the first `slices` slices is injective. */
  ghost predicate SlicesInjective(table: seq<Slice>, slices: nat) {
    forall k: nat :: k < slices ==> SliceInjective(SliceOf(table, k))
  }
}
