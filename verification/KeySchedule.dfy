/** The FairPlay key schedule: the recurrence of section 5.2 of FIPS 197 with a substitution of its
    own for every position, and its inverse. A row `[u32; 4]` is its sixteen little-endian bytes. */
module KeySchedule {
  import opened Words
  import opened Blocks
  import opened InverseCipher

  datatype KeyTables = KeyTables(s1: seq<Slice>, tKey: Block)

  const INDEX_MANGLE: seq<Byte> := [0x01, 0x02, 0x04, 0x08, 0x10, 0x20, 0x40, 0x80, 0x1b, 0x36, 0x6c]

  const S1_SLICES := 40

  /** `s1_base(i) >> 8` */
  function S1Slice(i: nat): (k: nat)
    ensures k < S1_SLICES
  {
    31 * i % S1_SLICES
  }

  function S1(t: KeyTables, i: nat, b: Byte): Byte {
    Look(SliceOf(t.s1, S1Slice(i)), b, 0)
  }

  function Mangle(round: nat, i: nat): Byte {
    if i == 0 && round < |INDEX_MANGLE| then INDEX_MANGLE[round] else 0
  }

  /** Where byte `i` of the turned word comes from: the last word rotated by one byte. */
  function TurnSource(i: nat): nat {
    if i == 3 then 12 else 13 + i
  }

  /** Byte `i` of the rotated, substituted and round-dependent last word, `b` being its source. */
  function Turned(t: KeyTables, round: nat, i: nat, b: Byte): Byte {
    S1(t, 4 * round + i, b) ^ Mangle(round, i)
  }

  function NextByte(t: KeyTables, round: nat, r: Block, i: nat): Byte
    requires i < BLOCK
  {
    if i < 4 then r[i] ^ Turned(t, round, i, r[TurnSource(i)]) else r[i] ^ NextByte(t, round, r, i - 4)
  }

  function NextRow(t: KeyTables, round: nat, r: Block): Block {
    seq(BLOCK, i requires 0 <= i < BLOCK => NextByte(t, round, r, i))
  }

  function PreviousByte(t: KeyTables, round: nat, r: Block, i: nat): Byte
    requires i < BLOCK
    decreases i < 4
  {
    if i < 4 then r[i] ^ Turned(t, round, i, PreviousByte(t, round, r, TurnSource(i))) else r[i] ^ r[i - 4]
  }

  function PreviousRow(t: KeyTables, round: nat, r: Block): Block {
    seq(BLOCK, i requires 0 <= i < BLOCK => PreviousByte(t, round, r, i))
  }

  function NextStep(t: KeyTables): Step {
    (round: nat, r: Block) => NextRow(t, round, r)
  }

  function PreviousStep(t: KeyTables): Step {
    (round: nat, r: Block) => PreviousRow(t, round, r)
  }

  /** Row `round` of the schedule of a key. */
  function RowOf(t: KeyTables, key: Block, round: nat): Block {
    Iterate(NextStep(t), Xor(key, t.tKey), round)
  }

  // ---- The method ----

  /** `b` holds bytes 0 to `done - 1` of the row after `r` and still the later bytes of `r`. */
  ghost predicate Turning(t: KeyTables, round: nat, r: Block, b: Block, done: nat) {
    forall i: nat :: i < BLOCK ==> b[i] == if i < done then NextByte(t, round, r, i) else r[i]
  }

  method TurnedByte(t: KeyTables, round: nat, i: nat, own: Byte, last: Byte, ghost r: Block) returns (v: Byte)
    requires i < 4 && own == r[i] && last == r[TurnSource(i)]
    ensures v == NextByte(t, round, r, i)
  {
    v := own ^ Turned(t, round, i, last);
  }

  /** One of the four assignments to the first word; `INDEX_MANGLE` enters the first of them only. */
  method TurnByte(t: KeyTables, buffer: array<Byte>, round: nat, i: nat, from: nat, ghost r: Block)
    requires buffer.Length == BLOCK && i < 4 && from == TurnSource(i)
    requires Turning(t, round, r, buffer[..], i)
    modifies buffer
    ensures Turning(t, round, r, buffer[..], i + 1)
  {
    ghost var b := buffer[..];
    assert buffer[i] == r[i] && buffer[from] == r[from];
    var v := TurnedByte(t, round, i, buffer[i], buffer[from], r);
    buffer[i] := v;
    assert buffer[..] == b[i := v];
  }

  method TurnFirstWord(t: KeyTables, buffer: array<Byte>, round: nat)
    requires buffer.Length == BLOCK
    modifies buffer
    ensures Turning(t, round, old(buffer[..]), buffer[..], 4)
  {
    ghost var r: Block := buffer[..];
    TurnByte(t, buffer, round, 0, 0x0d, r);
    TurnByte(t, buffer, round, 1, 0x0e, r);
    TurnByte(t, buffer, round, 2, 0x0f, r);
    TurnByte(t, buffer, round, 3, 0x0c, r);
  }

  /** `wr_le(word, rd_le(word) ^ rd_le(word - 1))` */
  method FoldWord(buffer: array<Byte>, word: nat, ghost t: KeyTables, ghost round: nat, ghost r: Block)
    requires buffer.Length == BLOCK && 0 < word < 4
    requires Turning(t, round, r, buffer[..], 4 * word)
    modifies buffer
    ensures Turning(t, round, r, buffer[..], 4 * word + 4)
  {
    for k := 4 * word to 4 * word + 4
      invariant Turning(t, round, r, buffer[..], k)
    {
      buffer[k] := buffer[k] ^ buffer[k - 4];
    }
  }

  /** One round: the row is stored word by word while the buffer turns into the next one. */
  method ScheduleRound(t: KeyTables, buffer: array<Byte>, round: nat) returns (stored: Block)
    requires buffer.Length == BLOCK && round < |INDEX_MANGLE|
    modifies buffer
    ensures stored == old(buffer[..])
    ensures buffer[..] == NextRow(t, round, old(buffer[..]))
  {
    ghost var r: Block := buffer[..];
    var w0 := buffer[0..4];
    TurnFirstWord(t, buffer, round);
    var w1 := buffer[4..8];
    assert w1 == r[4..8];
    FoldWord(buffer, 1, t, round, r);
    var w2 := buffer[8..12];
    assert w2 == r[8..12];
    FoldWord(buffer, 2, t, round, r);
    var w3 := buffer[12..16];
    assert w3 == r[12..16];
    FoldWord(buffer, 3, t, round, r);
    assert |w0| == 4 && |w1| == 4 && |w2| == 4 && |w3| == 4;
    assert |w0 + w1 + w2 + w3| == BLOCK;
    stored := w0 + w1 + w2 + w3;
    assert stored == r[0..4] + r[4..8] + r[8..12] + r[12..16];
  }

  method StepRound(t: KeyTables, buffer: array<Byte>, round: nat) returns (stored: Block)
    requires buffer.Length == BLOCK && round < |INDEX_MANGLE|
    modifies buffer
    ensures stored == old(buffer[..])
    ensures buffer[..] == NextStep(t)(round, old(buffer[..]))
  {
    NextStepAt(t, round, buffer[..]);
    stored := ScheduleRound(t, buffer, round);
  }

  lemma NextStepAt(t: KeyTables, round: nat, r: Block)
    ensures NextStep(t)(round, r) == NextRow(t, round, r)
  {
  }

  method GenerateKeySchedule(t: KeyTables, keyMaterial: Block, schedule: array<Block>)
    requires schedule.Length == ROUND_KEYS
    modifies schedule
    ensures forall round :: 0 <= round < ROUND_KEYS ==> schedule[round] == RowOf(t, keyMaterial, round)
    ensures FipsSchedule(t, keyMaterial, schedule[..])
  {
    var buffer := new Byte[BLOCK](_ => 0);
    XorBlocks(keyMaterial, t.tKey, buffer);
    for round := 0 to ROUND_KEYS
      invariant buffer[..] == RowOf(t, keyMaterial, round)
      invariant forall r :: 0 <= r < round ==> schedule[r] == RowOf(t, keyMaterial, r)
    {
      var row := StepRound(t, buffer, round);
      schedule[round] := row;
    }
    RowsAreFips(t, keyMaterial, schedule[..]);
  }

  // ---- The recurrence ----

  /** Section 5.2 of FIPS 197, byte by byte: each word is the word one row back combined with the word
      before it, which for the first word of a row is the turned last word of the row back. */
  lemma Recurrence(t: KeyTables, key: Block, row: nat, i: nat)
    requires row > 0 && i < BLOCK
    ensures RowOf(t, key, row)[i] == RowOf(t, key, row - 1)[i] ^
              if i < 4 then Turned(t, row - 1, i, RowOf(t, key, row - 1)[TurnSource(i)]) else RowOf(t, key, row)[i - 4]
  {
    var previous := RowOf(t, key, row - 1);
    NextStepAt(t, row - 1, previous);
    var next := NextRow(t, row - 1, previous);
    assert RowOf(t, key, row) == next;
    assert next[i] == NextByte(t, row - 1, previous, i);
    assert i >= 4 ==> next[i - 4] == NextByte(t, row - 1, previous, i - 4);
  }

  // ---- In words, as section 5.2 of FIPS 197 has it ----

  function RotWord(w: Word): Word {
    Word(w.b1, w.b2, w.b3, w.b0)
  }

  /** Byte `n` of all that are substituted, four for each row, goes through slice `31 * n % 40`. */
  function SubByte(t: KeyTables, n: nat, b: Byte): Byte {
    var slice := 31 * n % 40;
    if slice < |t.s1| then Look(t.s1[slice], b, 0) else 0
  }

  function SubWord(t: KeyTables, row: nat, w: Word): Word {
    Word(SubByte(t, 4 * row, w.b0), SubByte(t, 4 * row + 1, w.b1), SubByte(t, 4 * row + 2, w.b2),
         SubByte(t, 4 * row + 3, w.b3))
  }

  /** The powers of x in the field of section 4.2 of FIPS 197. */
  function Rcon(row: nat): Byte {
    if row == 0 then 1 else XTime(Rcon(row - 1))
  }

  function XTime(b: Byte): Byte {
    (b << 1) ^ (if b & 0x80 == 0 then 0 else 0x1b)
  }

  function WordOfRow(row: Block, w: nat): Word
    requires w < 4
  {
    Word(row[4 * w], row[4 * w + 1], row[4 * w + 2], row[4 * w + 3])
  }

  /** Word `n` of rows that stand one after the other. */
  function WordIn(rows: seq<Block>, n: nat): Word
    requires n < 4 * |rows|
  {
    WordOfRow(rows[n / 4], n % 4)
  }

  ghost predicate FipsWord(t: KeyTables, key: Block, rows: seq<Block>, n: nat)
    requires n < 4 * |rows|
  {
    WordIn(rows, n) ==
      if n < 4 then Xor32(WordOfRow(key, n), WordOfRow(t.tKey, n))
      else if n % 4 == 0 then
        Xor32(WordIn(rows, n - 4),
              Xor32(SubWord(t, n / 4 - 1, RotWord(WordIn(rows, n - 1))), Word(Rcon(n / 4 - 1), 0, 0, 0)))
      else Xor32(WordIn(rows, n - 4), WordIn(rows, n - 1))
  }

  /** 44 words: the key under its pad, and then the recurrence. */
  ghost predicate FipsSchedule(t: KeyTables, key: Block, rows: seq<Block>) {
    |rows| == 11 && forall n: nat :: n < 44 ==> FipsWord(t, key, rows, n)
  }

  lemma MangleIsRcon(row: nat)
    requires row < 11
    ensures INDEX_MANGLE[row] == Rcon(row)
  {
    assert Rcon(0) == 0x01 && Rcon(1) == 0x02 && Rcon(2) == 0x04 && Rcon(3) == 0x08;
    assert Rcon(4) == 0x10 && Rcon(5) == 0x20 && Rcon(6) == 0x40 && Rcon(7) == 0x80;
    assert Rcon(8) == 0x1b && Rcon(9) == 0x36 && Rcon(10) == 0x6c;
  }

  lemma TurnedByteIsFips(t: KeyTables, row: nat, i: nat, b: Byte)
    requires row < 11 && i < 4
    ensures Turned(t, row, i, b) == SubByte(t, 4 * row + i, b) ^ if i == 0 then Rcon(row) else 0
  {
    MangleIsRcon(row);
  }

  /** Row `s` follows row `r`, which is number `row`, byte by byte. */
  ghost predicate Follows(t: KeyTables, row: nat, r: Block, s: Block) {
    forall i: nat :: i < BLOCK ==> ByteFollows(t, row, r, s, i)
  }

  ghost predicate ByteFollows(t: KeyTables, row: nat, r: Block, s: Block, i: nat)
    requires i < BLOCK
  {
    s[i] == r[i] ^ if i < 4 then Turned(t, row, i, r[TurnSource(i)]) else s[i - 4]
  }

  lemma RowsFollow(t: KeyTables, key: Block, row: nat)
    ensures Follows(t, row, RowOf(t, key, row), RowOf(t, key, row + 1))
  {
    var r, s := RowOf(t, key, row), RowOf(t, key, row + 1);
    forall i: nat | i < BLOCK ensures ByteFollows(t, row, r, s, i) {
      Recurrence(t, key, row + 1, i);
    }
  }

  lemma FirstWordByte(t: KeyTables, row: nat, r: Block, s: Block, i: nat)
    requires Follows(t, row, r, s) && row < 11 && i < 4
    ensures s[i] == r[i] ^ (SubByte(t, 4 * row + i, r[TurnSource(i)]) ^ if i == 0 then Rcon(row) else 0)
  {
    assert ByteFollows(t, row, r, s, i);
    TurnedByteIsFips(t, row, i, r[TurnSource(i)]);
  }

  lemma FirstWord(t: KeyTables, row: nat, r: Block, s: Block)
    requires Follows(t, row, r, s) && row < 11
    ensures WordOfRow(s, 0) ==
            Xor32(WordOfRow(r, 0), Xor32(SubWord(t, row, RotWord(WordOfRow(r, 3))), Word(Rcon(row), 0, 0, 0)))
  {
    FirstWordByte(t, row, r, s, 0);
    FirstWordByte(t, row, r, s, 1);
    FirstWordByte(t, row, r, s, 2);
    FirstWordByte(t, row, r, s, 3);
    AddedWord(WordOfRow(s, 0), WordOfRow(r, 0), SubWord(t, row, RotWord(WordOfRow(r, 3))), Rcon(row));
  }

  lemma AddedWord(s: Word, r: Word, sub: Word, rcon: Byte)
    requires s.b0 == r.b0 ^ (sub.b0 ^ rcon) && s.b1 == r.b1 ^ (sub.b1 ^ 0)
    requires s.b2 == r.b2 ^ (sub.b2 ^ 0) && s.b3 == r.b3 ^ (sub.b3 ^ 0)
    ensures s == Xor32(r, Xor32(sub, Word(rcon, 0, 0, 0)))
  {
  }

  lemma LaterWord(t: KeyTables, row: nat, r: Block, s: Block, w: nat)
    requires Follows(t, row, r, s) && 0 < w < 4
    ensures WordOfRow(s, w) == Xor32(WordOfRow(r, w), WordOfRow(s, w - 1))
  {
    LaterByte(t, row, r, s, 4 * w, 4 * (w - 1));
    LaterByte(t, row, r, s, 4 * w + 1, 4 * (w - 1) + 1);
    LaterByte(t, row, r, s, 4 * w + 2, 4 * (w - 1) + 2);
    LaterByte(t, row, r, s, 4 * w + 3, 4 * (w - 1) + 3);
  }

  lemma LaterByte(t: KeyTables, row: nat, r: Block, s: Block, i: nat, before: nat)
    requires Follows(t, row, r, s) && before + 4 == i < BLOCK
    ensures s[i] == r[i] ^ s[before]
  {
    assert ByteFollows(t, row, r, s, i);
  }

  lemma FirstRow(t: KeyTables, key: Block, row: Block, w: nat)
    requires row == Xor(key, t.tKey) && w < 4
    ensures WordOfRow(row, w) == Xor32(WordOfRow(key, w), WordOfRow(t.tKey, w))
  {
  }

  lemma RowWordIsFips(t: KeyTables, key: Block, rows: seq<Block>, n: nat)
    requires |rows| == 11 && rows[0] == Xor(key, t.tKey) && n < 44
    requires forall row: nat :: row < 10 ==> Follows(t, row, rows[row], rows[row + 1])
    ensures FipsWord(t, key, rows, n)
  {
    var row, w := n / 4, n % 4;
    if row == 0 {
      FirstRow(t, key, rows[0], w);
    } else if w == 0 {
      FirstWord(t, row - 1, rows[row - 1], rows[row]);
      assert WordIn(rows, n - 4) == WordOfRow(rows[row - 1], 0) && WordIn(rows, n - 1) == WordOfRow(rows[row - 1], 3);
    } else {
      LaterWord(t, row - 1, rows[row - 1], rows[row], w);
      assert WordIn(rows, n - 4) == WordOfRow(rows[row - 1], w) && WordIn(rows, n - 1) == WordOfRow(rows[row], w - 1);
    }
  }

  lemma RowsAreFips(t: KeyTables, key: Block, rows: seq<Block>)
    requires |rows| == 11 && forall row :: 0 <= row < 11 ==> rows[row] == RowOf(t, key, row)
    ensures FipsSchedule(t, key, rows)
  {
    forall row: nat | row < 10 ensures Follows(t, row, rows[row], rows[row + 1]) {
      RowsFollow(t, key, row);
    }
    forall n: nat | n < 44 ensures FipsWord(t, key, rows, n) {
      RowWordIsFips(t, key, rows, n);
    }
  }

  lemma {:induction false} SameFipsWord(t: KeyTables, key: Block, rows: seq<Block>, rows': seq<Block>, n: nat)
    requires FipsSchedule(t, key, rows) && FipsSchedule(t, key, rows') && n < 44
    ensures WordIn(rows, n) == WordIn(rows', n)
  {
    assert FipsWord(t, key, rows, n) && FipsWord(t, key, rows', n);
    if n < 4 {
    } else {
      SameFipsWord(t, key, rows, rows', n - 4);
      SameFipsWord(t, key, rows, rows', n - 1);
    }
  }

  lemma SameRow(r: Block, s: Block)
    requires forall w: nat :: w < 4 ==> WordOfRow(r, w) == WordOfRow(s, w)
    ensures r == s
  {
    forall w: nat | w < 4 ensures RdLe(r, w) == RdLe(s, w) {
      assert RdLe(r, w) == WordOfRow(r, w) && RdLe(s, w) == WordOfRow(s, w);
    }
    SameWords(r, s);
  }

  lemma WordInRow(rows: seq<Block>, row: nat, w: nat)
    requires row < |rows| && w < 4
    ensures WordIn(rows, 4 * row + w) == WordOfRow(rows[row], w)
  {
    Cell(row, w);
  }

  /** Only one schedule of a key follows the recurrence. */
  lemma OnlyOneSchedule(t: KeyTables, key: Block, rows: seq<Block>, rows': seq<Block>)
    requires FipsSchedule(t, key, rows) && FipsSchedule(t, key, rows')
    ensures rows == rows'
  {
    forall row: nat | row < 11 ensures rows[row] == rows'[row] {
      forall w: nat | w < 4 ensures WordOfRow(rows[row], w) == WordOfRow(rows'[row], w) {
        SameFipsWord(t, key, rows, rows', 4 * row + w);
        WordInRow(rows, row, w);
        WordInRow(rows', row, w);
      }
      SameRow(rows[row], rows'[row]);
    }
  }

  // ---- The inverse ----

  lemma XorBack(b: Byte, c: Byte)
    ensures (b ^ c) ^ c == b && c ^ (b ^ c) == b && b ^ (b ^ c) == c
  {
  }

  lemma PreviousOfNextByte(t: KeyTables, round: nat, r: Block, i: nat)
    requires i < BLOCK
    ensures PreviousByte(t, round, NextRow(t, round, r), i) == r[i]
    decreases i < 4
  {
    var n := NextRow(t, round, r);
    assert n[i] == NextByte(t, round, r, i);
    if i < 4 {
      PreviousOfNextByte(t, round, r, TurnSource(i));
      XorBack(r[i], Turned(t, round, i, r[TurnSource(i)]));
    } else {
      assert n[i - 4] == NextByte(t, round, r, i - 4);
      XorBack(r[i], n[i - 4]);
    }
  }

  lemma NextOfPreviousByte(t: KeyTables, round: nat, r: Block, i: nat)
    requires i < BLOCK
    ensures NextByte(t, round, PreviousRow(t, round, r), i) == r[i]
  {
    var p := PreviousRow(t, round, r);
    assert p[i] == PreviousByte(t, round, r, i);
    if i < 4 {
      assert p[TurnSource(i)] == PreviousByte(t, round, r, TurnSource(i));
      XorBack(r[i], Turned(t, round, i, p[TurnSource(i)]));
    } else {
      NextOfPreviousByte(t, round, r, i - 4);
      XorBack(r[i], r[i - 4]);
    }
  }

  /** The inverse round undoes the round and the round undoes it, whatever the table holds. */
  lemma RoundsUndoEachOther(t: KeyTables, round: nat, r: Block)
    ensures PreviousRow(t, round, NextRow(t, round, r)) == r
    ensures NextRow(t, round, PreviousRow(t, round, r)) == r
  {
    forall i: nat | i < BLOCK
      ensures PreviousRow(t, round, NextRow(t, round, r))[i] == r[i]
      ensures NextRow(t, round, PreviousRow(t, round, r))[i] == r[i]
    {
      PreviousOfNextByte(t, round, r, i);
      NextOfPreviousByte(t, round, r, i);
    }
  }

  /** Steps `n - 1`, ..., 0 in this order. */
  function Backward(step: Step, r: Block, n: nat): Block
    decreases n
  {
    if n == 0 then r else Backward(step, step(n - 1, r), n - 1)
  }

  /** Steps that undo each other do so in any number. */
  lemma {:induction false} BackwardUndoesForward(next: Step, previous: Step, r: Block, n: nat)
    requires forall i: nat, s: Block :: previous(i, next(i, s)) == s
    ensures Backward(previous, Iterate(next, r, n), n) == r
  {
    if n == 0 {
    } else {
      BackwardUndoesForward(next, previous, r, n - 1);
    }
  }

  lemma {:induction false} ForwardUndoesBackward(next: Step, previous: Step, r: Block, n: nat)
    requires forall i: nat, s: Block :: next(i, previous(i, s)) == s
    ensures Iterate(next, Backward(previous, r, n), n) == r
    decreases n
  {
    if n == 0 {
    } else {
      ForwardUndoesBackward(next, previous, previous(n - 1, r), n - 1);
    }
  }

  lemma StepsUndoEachOther(t: KeyTables)
    ensures forall i: nat, s: Block :: PreviousStep(t)(i, NextStep(t)(i, s)) == s
    ensures forall i: nat, s: Block :: NextStep(t)(i, PreviousStep(t)(i, s)) == s
  {
    forall i: nat, s: Block
      ensures PreviousStep(t)(i, NextStep(t)(i, s)) == s && NextStep(t)(i, PreviousStep(t)(i, s)) == s
    {
      RoundsUndoEachOther(t, i, s);
    }
  }

  /** Runs the schedule backwards from row `round` to the key. */
  function KeyFromRow(t: KeyTables, row: Block, round: nat): Block {
    Xor(Backward(PreviousStep(t), row, round), t.tKey)
  }

  /** For any table contents a row determines the key ... */
  lemma RowGivesKey(t: KeyTables, key: Block, round: nat)
    ensures KeyFromRow(t, RowOf(t, key, round), round) == key
  {
    StepsUndoEachOther(t);
    BackwardUndoesForward(NextStep(t), PreviousStep(t), Xor(key, t.tKey), round);
    XorTwice(key, t.tKey);
  }

  /** ... and every value of a row belongs to some key. */
  lemma KeyGivesRow(t: KeyTables, row: Block, round: nat)
    ensures RowOf(t, KeyFromRow(t, row, round), round) == row
  {
    StepsUndoEachOther(t);
    XorTwice(Backward(PreviousStep(t), row, round), t.tKey);
    ForwardUndoesBackward(NextStep(t), PreviousStep(t), row, round);
  }

  /** One row determines the key and every other row. */
  lemma OneRowDeterminesAll(t: KeyTables, key: Block, key': Block, round: nat, other: nat)
    requires RowOf(t, key, round) == RowOf(t, key', round)
    ensures key == key' && RowOf(t, key, other) == RowOf(t, key', other)
  {
    RowGivesKey(t, key, round);
    RowGivesKey(t, key', round);
  }
}
