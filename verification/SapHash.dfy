/** The FairPlay `sap_hash`: loading a 64-byte block into a 210-byte buffer, scrambling the buffer in
    place, folding five buffers into a 16-byte key and scrambling that in place. The byte arithmetic
    between the two scrambles, `garble`, is a parameter. */
module SapHash {
  import opened Arithmetic
  import opened Words

  const INPUT := 64
  const SIZE := 210
  const STEPS := 840
  const KEY := 16
  const KEY_STEPS := 256

  const WORD_RANGE := 0x1_0000_0000

  function Rol8(input: bv32, count: nat): bv32
    requires 0 < count < 8
  {
    (((input << count) & 0xff) | ((input & 0xff) >> (8 - count))) & 0xff
  }

  // ---- Scrambling in place ----

  /** `(i as u32).wrapping_sub(k) % n` */
  function WrappedIndex(i: nat, k: nat, n: nat): (r: nat)
    requires 0 < n
    ensures r < n
  {
    (if i >= k then i - k else i + WORD_RANGE - k) % n
  }

  /** A buffer of `size` bytes in which step `i` rewrites cell `i % size` from itself and the cells
      `x`, `y` and `z` steps back. */
  datatype Taps = Taps(size: nat, x: nat, y: nat, z: nat)

  type Rewrite = (Byte, Byte, Byte, Byte) -> Byte

  function Rewritten(f: Rewrite, t: Taps, b: seq<Byte>, i: nat): (r: seq<Byte>)
    requires |b| == t.size > 0
    ensures |r| == t.size
  {
    b[i % t.size := f(b[WrappedIndex(i, t.x, t.size)], b[WrappedIndex(i, t.y, t.size)],
                      b[WrappedIndex(i, t.z, t.size)], b[i % t.size])]
  }

  /** Step `i` does not read the cell it rewrites as one of the other three. */
  predicate Apart(t: Taps, i: nat)
    requires t.size > 0
  {
    && WrappedIndex(i, t.x, t.size) != i % t.size
    && WrappedIndex(i, t.y, t.size) != i % t.size
    && WrappedIndex(i, t.z, t.size) != i % t.size
  }

  /** `g` recovers the byte that `f` rewrote. */
  ghost predicate Recovers(g: Rewrite, f: Rewrite) {
    forall x, y, z, w :: g(x, y, z, f(x, y, z, w)) == w
  }

  lemma RewritingUndone(f: Rewrite, g: Rewrite, t: Taps, b: seq<Byte>, i: nat)
    requires |b| == t.size > 0 && Apart(t, i) && Recovers(g, f)
    ensures Rewritten(g, t, Rewritten(f, t, b, i), i) == b
  {
    var x, y, z := b[WrappedIndex(i, t.x, t.size)], b[WrappedIndex(i, t.y, t.size)], b[WrappedIndex(i, t.z, t.size)];
    var w := b[i % t.size];
    assert g(x, y, z, f(x, y, z, w)) == w;
    var c := Rewritten(f, t, b, i);
    assert Rewritten(g, t, c, i) == c[i % t.size := w];
  }

  // ---- Steps in a row ----

  /** A numbered step on a buffer of any length. */
  type Step = (nat, seq<Byte>) -> seq<Byte>

  /** Steps 0, ..., `n - 1`. */
  function Scrambled(step: Step, b: seq<Byte>, n: nat): seq<Byte> {
    if n == 0 then b else step(n - 1, Scrambled(step, b, n - 1))
  }

  /** Steps `n - 1`, ..., 0. */
  function Unscrambled(undo: Step, b: seq<Byte>, n: nat): seq<Byte>
    decreases n
  {
    if n == 0 then b else Unscrambled(undo, undo(n - 1, b), n - 1)
  }

  ghost predicate Undoes(undo: Step, step: Step) {
    forall i: nat, b :: undo(i, step(i, b)) == b
  }

  ghost predicate KeepsLength(step: Step) {
    forall i: nat, b :: |step(i, b)| == |b|
  }

  lemma {:induction false} ScrambledLength(step: Step, b: seq<Byte>, n: nat)
    requires KeepsLength(step)
    ensures |Scrambled(step, b, n)| == |b|
  {
    if n == 0 {
    } else {
      ScrambledLength(step, b, n - 1);
    }
  }

  lemma {:induction false} UnscrambledLength(undo: Step, b: seq<Byte>, n: nat)
    requires KeepsLength(undo)
    ensures |Unscrambled(undo, b, n)| == |b|
    decreases n
  {
    if n == 0 {
    } else {
      UnscrambledLength(undo, undo(n - 1, b), n - 1);
    }
  }

  lemma {:induction false} Unscrambles(step: Step, undo: Step, b: seq<Byte>, n: nat)
    requires Undoes(undo, step)
    ensures Unscrambled(undo, Scrambled(step, b, n), n) == b
  {
    if n == 0 {
    } else {
      Unscrambles(step, undo, b, n - 1);
    }
  }

  lemma {:induction false} Rescrambles(step: Step, undo: Step, b: seq<Byte>, n: nat)
    requires Undoes(step, undo)
    ensures Scrambled(step, Unscrambled(undo, b, n), n) == b
    decreases n
  {
    if n == 0 {
    } else {
      Rescrambles(step, undo, undo(n - 1, b), n - 1);
    }
  }

  /** The steps that rewrite the cells of a buffer of `t.size` bytes. */
  function StepOf(f: Rewrite, t: Taps): Step {
    (i: nat, b: seq<Byte>) => Stepped(f, t, b, i)
  }

  function Stepped(f: Rewrite, t: Taps, b: seq<Byte>, i: nat): (r: seq<Byte>)
    ensures |r| == |b|
  {
    if |b| == t.size > 0 then Rewritten(f, t, b, i) else b
  }

  lemma StepAt(f: Rewrite, t: Taps, i: nat, b: seq<Byte>)
    ensures StepOf(f, t)(i, b) == Stepped(f, t, b, i)
  {
  }

  lemma StepKeepsLength(f: Rewrite, t: Taps)
    ensures KeepsLength(StepOf(f, t))
  {
  }

  lemma StepUndone(f: Rewrite, g: Rewrite, t: Taps)
    requires t.size > 0 && Recovers(g, f) && forall i: nat :: Apart(t, i)
    ensures Undoes(StepOf(g, t), StepOf(f, t))
  {
    forall i: nat, b ensures StepOf(g, t)(i, StepOf(f, t)(i, b)) == b {
      StepAt(f, t, i, b);
      StepAt(g, t, i, Stepped(f, t, b, i));
      if |b| == t.size {
        RewritingUndone(f, g, t, b, i);
      }
    }
  }

  /** Steps that keep clear of their own cell and can be undone make a bijection, in any number. */
  lemma ScrambleIsABijection(f: Rewrite, g: Rewrite, t: Taps, b: seq<Byte>, c: seq<Byte>, n: nat)
    requires t.size > 0 && Recovers(g, f) && Recovers(f, g) && forall i: nat :: Apart(t, i)
    ensures Scrambled(StepOf(f, t), b, n) == Scrambled(StepOf(f, t), c, n) <==> b == c
    ensures Scrambled(StepOf(f, t), Unscrambled(StepOf(g, t), b, n), n) == b
    ensures Unscrambled(StepOf(g, t), Scrambled(StepOf(f, t), b, n), n) == b
  {
    StepUndone(f, g, t);
    StepUndone(g, f, t);
    Unscrambles(StepOf(f, t), StepOf(g, t), b, n);
    Unscrambles(StepOf(f, t), StepOf(g, t), c, n);
    Rescrambles(StepOf(f, t), StepOf(g, t), b, n);
  }

  // ---- Loading ----

  /** The block again and again, the bytes of every word in reverse. */
  function Loaded(blockIn: seq<Byte>): (r: seq<Byte>)
    requires |blockIn| == INPUT
    ensures |r| == SIZE
  {
    seq(SIZE, i requires 0 <= i < SIZE => ByteOf(RdLe(blockIn, i % 64 / 4), 3 - i % 4))
  }

  function Unloaded(buffer: seq<Byte>): (r: seq<Byte>)
    requires |buffer| == SIZE
    ensures |r| == INPUT
  {
    seq(INPUT, i requires 0 <= i < INPUT => buffer[i / 4 * 4 + 3 - i % 4])
  }

  lemma ByteOfWord(buf: seq<Byte>, word: nat, k: nat)
    requires 4 * word + 4 <= |buf| && k < 4
    ensures ByteOf(RdLe(buf, word), k) == buf[4 * word + k]
  {
  }

  lemma LoadedByte(blockIn: seq<Byte>, word: nat, k: nat)
    requires |blockIn| == INPUT && word < 16 && k < 4
    ensures Loaded(blockIn)[4 * word + (3 - k)] == blockIn[4 * word + k]
  {
    CellOfWord(word, 3 - k);
    ByteOfWord(blockIn, word, k);
  }

  lemma CellOfWord(word: nat, k: nat)
    requires word < 16 && k < 4
    ensures var j := 4 * word + k; j % 64 / 4 == word && j % 4 == k
  {
  }

  lemma UnloadedLoaded(blockIn: seq<Byte>)
    requires |blockIn| == INPUT
    ensures Unloaded(Loaded(blockIn)) == blockIn
  {
    forall i: nat | i < INPUT
      ensures Unloaded(Loaded(blockIn))[i] == blockIn[i]
    {
      LoadedByte(blockIn, i / 4, i % 4);
    }
  }

  method Load(blockIn: seq<Byte>, buffer1: array<Byte>)
    requires |blockIn| == INPUT && buffer1.Length == SIZE
    modifies buffer1
    ensures buffer1[..] == Loaded(blockIn)
  {
    for i := 0 to SIZE
      invariant forall j :: 0 <= j < i ==> buffer1[j] == Loaded(blockIn)[j]
    {
      var inWord := RdLe(blockIn, i % 64 / 4);
      buffer1[i] := ByteOf(inWord, 3 - i % 4);
    }
  }

  // ---- The 840 steps ----

  const BUFFER_TAPS := Taps(SIZE, 155, 57, 13)

  /** In this buffer a difference that wraps around lands 46 cells away from the signed one ... */
  lemma WrapShiftsBy46(i: nat, k: nat)
    requires i < k <= SIZE
    ensures WrappedIndex(i, k, SIZE) == (i - k + 46) % SIZE
  {
  }

  /** ... and still never on the cell being rewritten. */
  lemma OwnCellIsNotRead(i: nat)
    ensures Apart(BUFFER_TAPS, i)
  {
  }

  /** The new cell, computed in `u32` with wrap-around and cut to its low byte. */
  function Mixed(x: Byte, y: Byte, z: Byte, w: Byte): Byte {
    ((Rol8(y as bv32, 5) + (Rol8(z as bv32, 3) ^ (w as bv32)) - Rol8(x as bv32, 7)) & 0xff) as Byte
  }

  function Unmixed(x: Byte, y: Byte, z: Byte, n: Byte): Byte {
    ((((n as bv32) - Rol8(y as bv32, 5) + Rol8(x as bv32, 7)) ^ Rol8(z as bv32, 3)) & 0xff) as Byte
  }

  lemma UnmixedInline(x: Byte, y: Byte, z: Byte, w: Byte)
    ensures Unmixed(x, y, z,
              ((Rol8(y as bv32, 5) + (Rol8(z as bv32, 3) ^ (w as bv32)) - Rol8(x as bv32, 7)) & 0xff) as Byte)
            == w
  {
  }

  lemma MixedInline(x: Byte, y: Byte, z: Byte, n: Byte)
    ensures Mixed(x, y, z,
              ((((n as bv32) - Rol8(y as bv32, 5) + Rol8(x as bv32, 7)) ^ Rol8(z as bv32, 3)) & 0xff) as Byte)
            == n
  {
  }

  /** Given the three cells read, a step can be undone, and the undoing redone. */
  lemma UnmixedMixed(x: Byte, y: Byte, z: Byte, w: Byte)
    ensures Unmixed(x, y, z, Mixed(x, y, z, w)) == w && Mixed(x, y, z, Unmixed(x, y, z, w)) == w
  {
    UnmixedInline(x, y, z, w);
    MixedInline(x, y, z, w);
  }

  lemma MixedUnmixed()
    ensures Recovers(Unmixed, Mixed) && Recovers(Mixed, Unmixed)
  {
    forall x, y, z, w
      ensures Unmixed(x, y, z, Mixed(x, y, z, w)) == w && Mixed(x, y, z, Unmixed(x, y, z, w)) == w
    {
      UnmixedMixed(x, y, z, w);
    }
  }

  function BufferScrambled(b: seq<Byte>): (r: seq<Byte>)
    ensures |r| == |b|
  {
    StepKeepsLength(Mixed, BUFFER_TAPS);
    ScrambledLength(StepOf(Mixed, BUFFER_TAPS), b, STEPS);
    Scrambled(StepOf(Mixed, BUFFER_TAPS), b, STEPS)
  }

  function BufferUnscrambled(b: seq<Byte>): (r: seq<Byte>)
    ensures |r| == |b|
  {
    StepKeepsLength(Unmixed, BUFFER_TAPS);
    UnscrambledLength(StepOf(Unmixed, BUFFER_TAPS), b, STEPS);
    Unscrambled(StepOf(Unmixed, BUFFER_TAPS), b, STEPS)
  }

  method ScrambleByte(f: Rewrite, t: Taps, buffer: array<Byte>, i: nat)
    requires buffer.Length == t.size > 0
    modifies buffer
    ensures buffer[..] == StepOf(f, t)(i, old(buffer[..]))
  {
    StepAt(f, t, i, buffer[..]);
    var x := buffer[WrappedIndex(i, t.x, t.size)];
    var y := buffer[WrappedIndex(i, t.y, t.size)];
    var z := buffer[WrappedIndex(i, t.z, t.size)];
    var w := buffer[i % t.size];
    buffer[i % t.size] := f(x, y, z, w);
  }

  method Scramble(f: Rewrite, t: Taps, buffer: array<Byte>, steps: nat)
    requires buffer.Length == t.size > 0
    modifies buffer
    ensures buffer[..] == Scrambled(StepOf(f, t), old(buffer[..]), steps)
  {
    for i := 0 to steps
      invariant buffer[..] == Scrambled(StepOf(f, t), old(buffer[..]), i)
    {
      ScrambleByte(f, t, buffer, i);
    }
  }

  /** The 840 steps are a bijection of 210-byte buffers. */
  lemma BufferScrambleIsABijection(b: seq<Byte>, c: seq<Byte>)
    requires |b| == SIZE && |c| == SIZE
    ensures BufferScrambled(b) == BufferScrambled(c) <==> b == c
    ensures BufferScrambled(BufferUnscrambled(b)) == b && BufferUnscrambled(BufferScrambled(b)) == b
  {
    MixedUnmixed();
    forall i: nat ensures Apart(BUFFER_TAPS, i) { OwnCellIsNotRead(i); }
    ScrambleIsABijection(Mixed, Unmixed, BUFFER_TAPS, b, c, STEPS);
  }

  /** The buffer handed to `garble` determines the block it came from. */
  lemma BufferDeterminesBlock(blockIn: seq<Byte>)
    requires |blockIn| == INPUT
    ensures Unloaded(BufferUnscrambled(BufferScrambled(Loaded(blockIn)))) == blockIn
  {
    BufferScrambleIsABijection(Loaded(blockIn), Loaded(blockIn));
    UnloadedLoaded(blockIn);
  }

  // ---- The 256 steps on the key ----

  const KEY_TAPS := Taps(KEY, 7, 37, 177)

  /** `y` is the byte being rewritten. */
  function KeyMixed(x: Byte, z: Byte, w: Byte, y: Byte): Byte {
    (Rol8(x as bv32, 1) ^ (y as bv32) ^ Rol8(z as bv32, 6) ^ Rol8(w as bv32, 5)) as Byte
  }

  /** Exclusive or undoes itself, so a step does. */
  lemma KeyMixedTwice()
    ensures Recovers(KeyMixed, KeyMixed)
  {
    forall x, z, w, y
      ensures KeyMixed(x, z, w, KeyMixed(x, z, w, y)) == y
    {
      KeyByteTwice(x, z, w, y);
    }
  }

  lemma KeyByteTwice(x: Byte, z: Byte, w: Byte, y: Byte)
    ensures KeyMixed(x, z, w, KeyMixed(x, z, w, y)) == y
  {
  }

  /** The sixteen passes count from 0 again, which in 16 cells makes no difference: the index wraps
      to the same cell. */
  lemma PassesAreOneRun(base: nat, i: nat, k: nat)
    requires base % KEY == 0 && i < KEY && k < WORD_RANGE
    ensures (base + i) % KEY == i
    ensures WrappedIndex(base + i, k, KEY) == WrappedIndex(i, k, KEY) == (i - k) % KEY
  {
    var q := base / KEY;
    AddMultiple(q, i);
    AddMultiple(q, i - k);
    AddMultiple(q + WORD_RANGE / KEY, i - k);
    AddMultiple(WORD_RANGE / KEY, i - k);
  }

  lemma AddMultiple(q: int, m: int)
    ensures (KEY * q + m) % KEY == m % KEY
  {
  }

  function KeyScrambled(k: seq<Byte>): (r: seq<Byte>)
    ensures |r| == |k|
  {
    StepKeepsLength(KeyMixed, KEY_TAPS);
    ScrambledLength(StepOf(KeyMixed, KEY_TAPS), k, KEY_STEPS);
    Scrambled(StepOf(KeyMixed, KEY_TAPS), k, KEY_STEPS)
  }

  function KeyUnscrambled(k: seq<Byte>): (r: seq<Byte>)
    ensures |r| == |k|
  {
    StepKeepsLength(KeyMixed, KEY_TAPS);
    UnscrambledLength(StepOf(KeyMixed, KEY_TAPS), k, KEY_STEPS);
    Unscrambled(StepOf(KeyMixed, KEY_TAPS), k, KEY_STEPS)
  }

  lemma KeyApart(i: nat)
    ensures Apart(KEY_TAPS, i)
  {
  }

  /** The last scramble is a bijection of 16-byte keys. */
  lemma KeyScrambleIsABijection(k: seq<Byte>, l: seq<Byte>)
    requires |k| == KEY && |l| == KEY
    ensures KeyScrambled(k) == KeyScrambled(l) <==> k == l
    ensures KeyScrambled(KeyUnscrambled(k)) == k && KeyUnscrambled(KeyScrambled(k)) == k
  {
    KeyMixedTwice();
    forall i: nat ensures Apart(KEY_TAPS, i) { KeyApart(i); }
    ScrambleIsABijection(KeyMixed, KeyMixed, KEY_TAPS, k, l, KEY_STEPS);
  }

  lemma StepInAnyPass(f: Rewrite, k: seq<Byte>, base: nat, i: nat)
    requires base % KEY == 0 && i < KEY
    ensures StepOf(f, KEY_TAPS)(base + i, k) == StepOf(f, KEY_TAPS)(i, k)
  {
    StepAt(f, KEY_TAPS, base + i, k);
    StepAt(f, KEY_TAPS, i, k);
    PassesAreOneRun(base, i, 7);
    PassesAreOneRun(base, i, 37);
    PassesAreOneRun(base, i, 177);
  }

  method ScrambleKeyByte(f: Rewrite, keyOut: array<Byte>, i: nat, ghost base: nat)
    requires keyOut.Length == KEY && base % KEY == 0 && i < KEY
    modifies keyOut
    ensures keyOut[..] == StepOf(f, KEY_TAPS)(base + i, old(keyOut[..]))
  {
    StepInAnyPass(f, keyOut[..], base, i);
    ScrambleByte(f, KEY_TAPS, keyOut, i);
  }

  lemma NextStep(step: Step, b: seq<Byte>, n: nat)
    ensures Scrambled(step, b, n + 1) == step(n, Scrambled(step, b, n))
  {
  }

  method ScramblePass(f: Rewrite, keyOut: array<Byte>, ghost k: seq<Byte>, ghost base: nat)
    requires keyOut.Length == KEY && base % KEY == 0
    requires keyOut[..] == Scrambled(StepOf(f, KEY_TAPS), k, base)
    modifies keyOut
    ensures keyOut[..] == Scrambled(StepOf(f, KEY_TAPS), k, base + KEY)
  {
    ghost var step := StepOf(f, KEY_TAPS);
    for i := 0 to 16
      invariant keyOut[..] == Scrambled(step, k, base + i)
    {
      ScrambleKeyByte(f, keyOut, i, base);
      NextStep(step, k, base + i);
    }
  }

  method ScramblePasses(f: Rewrite, keyOut: array<Byte>, passes: nat)
    requires keyOut.Length == KEY
    modifies keyOut
    ensures keyOut[..] == Scrambled(StepOf(f, KEY_TAPS), old(keyOut[..]), KEY * passes)
  {
    ghost var k := keyOut[..];
    for pass := 0 to passes
      invariant keyOut[..] == Scrambled(StepOf(f, KEY_TAPS), k, KEY * pass)
    {
      ScramblePass(f, keyOut, k, KEY * pass);
    }
  }

  method ScrambleKey(keyOut: array<Byte>)
    requires keyOut.Length == KEY
    modifies keyOut
    ensures keyOut[..] == KeyScrambled(old(keyOut[..]))
  {
    ScramblePasses(KeyMixed, keyOut, 16);
  }

  // ---- Folding ----

  datatype Buffers = Buffers(b0: seq<Byte>, b1: seq<Byte>, b2: seq<Byte>, b3: seq<Byte>, b4: seq<Byte>) {
    predicate Fit() {
      |b0| == 20 && |b1| == SIZE && |b2| == 35 && |b3| == 132 && |b4| == 21
    }
  }

  const I0_INDEX: seq<nat> := [18, 22, 23, 0, 5, 19, 32, 31, 10, 21, 30]

  /** What byte `i` of the key starts from. */
  function SeedByte(b3: seq<Byte>, i: nat): Byte
    requires |b3| == 132 && i < KEY
  {
    if i == 3 then 0x3d else if i < 11 then 0xE1 + b3[I0_INDEX[i] * 4] else 0xE1
  }

  function XorOf(a: Byte, b: Byte): Byte {
    a ^ b
  }

  /** The elements of `s` below `n` whose index is `lane` modulo 16, combined onto `a`. */
  function LaneFold<T>(op: (T, T) -> T, a: T, s: seq<T>, n: nat, lane: nat): T
    requires n <= |s|
  {
    if n == 0 then a
    else if (n - 1) % KEY == lane then op(LaneFold(op, a, s, n - 1, lane), s[n - 1])
    else LaneFold(op, a, s, n - 1, lane)
  }

  /** `k` with `n` bytes of `s` folded in, byte `i` into lane `i % 16`. */
  function FoldedIn(k: seq<Byte>, s: seq<Byte>, n: nat): (r: seq<Byte>)
    requires |k| == KEY && n <= |s|
    ensures |r| == KEY
  {
    seq(KEY, j requires 0 <= j < KEY => LaneFold(XorOf, k[j], s, n, j))
  }

  function Folded(b: Buffers): (r: seq<Byte>)
    requires b.Fit()
    ensures |r| == KEY
  {
    FoldedIn(FoldedIn(FoldedIn(SeedsOf(b.b3), b.b0, 20), b.b2, 35), b.b1, SIZE)
  }

  lemma FoldStep(k: seq<Byte>, s: seq<Byte>, n: nat)
    requires |k| == KEY && n < |s|
    ensures var r := FoldedIn(k, s, n);
            FoldedIn(k, s, n + 1) == r[n % 16 := XorOf(r[n % 16], s[n])]
  {
  }

  method FoldIn(s: seq<Byte>, keyOut: array<Byte>)
    requires keyOut.Length == KEY
    modifies keyOut
    ensures keyOut[..] == FoldedIn(old(keyOut[..]), s, |s|)
  {
    assert keyOut[..] == FoldedIn(keyOut[..], s, 0);
    for i := 0 to |s|
      invariant keyOut[..] == FoldedIn(old(keyOut[..]), s, i)
    {
      FoldStep(old(keyOut[..]), s, i);
      keyOut[i % 16] := XorOf(keyOut[i % 16], s[i]);
    }
  }

  method FoldSeed(b3: seq<Byte>, keyOut: array<Byte>)
    requires |b3| == 132 && keyOut.Length == KEY
    modifies keyOut
    ensures forall j :: 0 <= j < KEY ==> keyOut[j] == SeedByte(b3, j)
  {
    for i := 0 to 16
      invariant forall j :: 0 <= j < i ==> keyOut[j] == 0xE1
    {
      keyOut[i] := 0xE1;
    }
    for i := 0 to 11
      invariant forall j :: 0 <= j < i ==> keyOut[j] == SeedByte(b3, j)
      invariant forall j :: i <= j < KEY ==> keyOut[j] == 0xE1
    {
      if i == 3 {
        keyOut[i] := 0x3d;
      } else {
        keyOut[i] := keyOut[i] + b3[I0_INDEX[i] * 4];
      }
    }
  }

  /** Operands may change places. */
  ghost predicate Moves<T(!new)>(op: (T, T) -> T) {
    forall a, b, c :: op(op(a, b), c) == op(op(a, c), b)
  }

  /** `after` is `before` with the operand `was` exchanged for `v`, if `affected`. */
  ghost predicate Moved<T>(op: (T, T) -> T, after: T, before: T, affected: bool, was: T, v: T) {
    if affected then op(after, was) == op(before, v) else after == before
  }

  lemma {:induction false} ReplacedInLane<T(!new)>(op: (T, T) -> T, a: T, s: seq<T>, n: nat, i: nat, v: T, lane: nat)
    requires i < |s| && n <= |s| && Moves(op)
    ensures Moved(op, LaneFold(op, a, s[i := v], n, lane), LaneFold(op, a, s, n, lane),
                  i < n && lane == i % KEY, s[i], v)
  {
    if n == 0 {
    } else {
      var m := n - 1;
      var after, before := LaneFold(op, a, s[i := v], m, lane), LaneFold(op, a, s, m, lane);
      ReplacedInLane(op, a, s, m, i, v, lane);
      if m % KEY == lane && m == i {
        assert op(op(before, v), s[i]) == op(op(before, s[i]), v);
      } else if m % KEY == lane && i < m && lane == i % KEY {
        assert op(op(after, s[m]), s[i]) == op(op(after, s[i]), s[m]);
        assert op(op(before, v), s[m]) == op(op(before, s[m]), v);
      }
    }
  }

  lemma XorMoves()
    ensures Moves(XorOf)
  {
    forall a, b, c ensures XorOf(XorOf(a, b), c) == XorOf(XorOf(a, c), b) {
      XorSwaps(a, b, c);
    }
  }

  lemma XorSwaps(a: Byte, b: Byte, c: Byte)
    ensures XorOf(a ^ b, c) == XorOf(a ^ c, b)
  {
  }

  lemma Difference(after: Byte, before: Byte, was: Byte, v: Byte)
    requires XorOf(after, was) == XorOf(before, v)
    ensures after == XorOf(before, XorOf(was, v))
  {
  }

  lemma LaneIsLinear(a: Byte, s: seq<Byte>, i: nat, v: Byte, lane: nat)
    requires i < |s|
    ensures LaneFold(XorOf, a, s[i := v], |s|, lane) ==
            var before := LaneFold(XorOf, a, s, |s|, lane);
            if lane == i % KEY then XorOf(before, XorOf(s[i], v)) else before
  {
    XorMoves();
    ReplacedInLane(XorOf, a, s, |s|, i, v, lane);
    if lane == i % KEY {
      Difference(LaneFold(XorOf, a, s[i := v], |s|, lane), LaneFold(XorOf, a, s, |s|, lane), s[i], v);
    }
  }

  /** Replacing one byte of a buffer changes one byte of the fold, by the difference. */
  lemma FoldIsLinear(k: seq<Byte>, s: seq<Byte>, i: nat, v: Byte)
    requires |k| == KEY && i < |s|
    ensures var r := FoldedIn(k, s, |s|);
            FoldedIn(k, s[i := v], |s|) == r[i % KEY := XorOf(r[i % KEY], XorOf(s[i], v))]
  {
    var r := FoldedIn(k, s, |s|);
    var d := XorOf(s[i], v);
    forall j: nat | j < KEY
      ensures FoldedIn(k, s[i := v], |s|)[j] == if j == i % KEY then XorOf(r[j], d) else r[j]
    {
      LaneIsLinear(k[j], s, i, v, j);
    }
  }

  // ---- What enters the fold ----

  /** Lane `lane` differs by `d`, and no other. */
  function Changed(k: seq<Byte>, lane: nat, d: Byte): (r: seq<Byte>)
    requires lane < |k|
    ensures |r| == |k|
  {
    k[lane := XorOf(k[lane], d)]
  }

  lemma {:induction false} StartMoves<T(!new)>(op: (T, T) -> T, a: T, d: T, s: seq<T>, n: nat, lane: nat)
    requires n <= |s| && Moves(op)
    ensures LaneFold(op, op(a, d), s, n, lane) == op(LaneFold(op, a, s, n, lane), d)
  {
    if n == 0 {
    } else {
      StartMoves(op, a, d, s, n - 1, lane);
    }
  }

  /** A change of what is folded onto stays what it is. */
  lemma ChangePasses(k: seq<Byte>, lane: nat, d: Byte, s: seq<Byte>)
    requires |k| == KEY && lane < KEY
    ensures FoldedIn(Changed(k, lane, d), s, |s|) == Changed(FoldedIn(k, s, |s|), lane, d)
  {
    XorMoves();
    StartMoves(XorOf, k[lane], d, s, |s|, lane);
  }

  function SeedsOf(b3: seq<Byte>): (r: seq<Byte>)
    requires |b3| == 132
    ensures |r| == KEY
  {
    seq(KEY, i requires 0 <= i < KEY => SeedByte(b3, i))
  }

  /** Any byte of the first three buffers shows in one lane, by its difference. */
  lemma FirstBufferIsFolded(b: Buffers, i: nat, v: Byte)
    requires b.Fit() && i < 20
    ensures Folded(b.(b0 := b.b0[i := v])) == Changed(Folded(b), i % 16, XorOf(b.b0[i], v))
  {
    var seeds, d := SeedsOf(b.b3), XorOf(b.b0[i], v);
    var k := FoldedIn(seeds, b.b0, 20);
    FoldIsLinear(seeds, b.b0, i, v);
    ChangePasses(k, i % 16, d, b.b2);
    ChangePasses(FoldedIn(k, b.b2, 35), i % 16, d, b.b1);
  }

  lemma ThirdBufferIsFolded(b: Buffers, i: nat, v: Byte)
    requires b.Fit() && i < 35
    ensures Folded(b.(b2 := b.b2[i := v])) == Changed(Folded(b), i % 16, XorOf(b.b2[i], v))
  {
    var k := FoldedIn(SeedsOf(b.b3), b.b0, 20);
    FoldIsLinear(k, b.b2, i, v);
    ChangePasses(FoldedIn(k, b.b2, 35), i % 16, XorOf(b.b2[i], v), b.b1);
  }

  lemma SecondBufferIsFolded(b: Buffers, i: nat, v: Byte)
    requires b.Fit() && i < SIZE
    ensures Folded(b.(b1 := b.b1[i := v])) == Changed(Folded(b), i % 16, XorOf(b.b1[i], v))
  {
    FoldIsLinear(FoldedIn(FoldedIn(SeedsOf(b.b3), b.b0, 20), b.b2, 35), b.b1, i, v);
  }

  /** The lane, if any, that byte `i` of the fourth buffer seeds. */
  predicate Seeds(i: nat, j: nat) {
    j != 3 && j <= 10 && SeedIndex(j) == i
  }

  lemma SeedsApart(j: nat, j': nat)
    requires j <= 10 && j' <= 10 && j != 3 && j' != 3 && SeedIndex(j) == SeedIndex(j')
    ensures j == j'
  {
  }

  lemma SeedReplaced(b3: seq<Byte>, i: nat, v: Byte, j: nat)
    requires |b3| == 132 && i < 132 && j < KEY
    ensures SeedByte(b3[i := v], j) == if Seeds(i, j) then 0xE1 + v else SeedByte(b3, j)
  {
    SeedIsLaneSeed(b3, j);
    SeedIsLaneSeed(b3[i := v], j);
    var k := SeedIndex(j);
    assert b3[i := v][k] == if k == i then v else b3[k];
  }

  /** A byte of the fourth buffer shows in the lane that it seeds, or nowhere. */
  lemma FourthBufferSeeds(b: Buffers, i: nat, v: Byte, j: nat)
    requires b.Fit() && i < 132 && j < KEY && Seeds(i, j)
    ensures Folded(b.(b3 := b.b3[i := v])) == Changed(Folded(b), j, XorOf(SeedByte(b.b3, j), 0xE1 + v))
  {
    var d := XorOf(SeedByte(b.b3, j), 0xE1 + v);
    forall l: nat | l < KEY
      ensures SeedsOf(b.b3[i := v])[l] == Changed(SeedsOf(b.b3), j, d)[l]
    {
      SeedReplaced(b.b3, i, v, l);
      if l == j {
        XorTo(SeedByte(b.b3, j), 0xE1 + v);
      } else if Seeds(i, l) {
        SeedsApart(l, j);
      }
    }
    var k := FoldedIn(SeedsOf(b.b3), b.b0, 20);
    assert SeedsOf(b.b3[i := v]) == Changed(SeedsOf(b.b3), j, d);
    ChangePasses(SeedsOf(b.b3), j, d, b.b0);
    ChangePasses(k, j, d, b.b2);
    ChangePasses(FoldedIn(k, b.b2, 35), j, d, b.b1);
  }

  lemma XorTo(a: Byte, b: Byte)
    ensures XorOf(a, XorOf(a, b)) == b
  {
  }

  /** The other bytes of the fourth buffer and the whole fifth buffer do not enter. */
  lemma NothingElseIsFolded(b: Buffers, i: nat, v: Byte, b4: seq<Byte>)
    requires b.Fit() && i < 132 && |b4| == 21 && forall j: nat :: j < KEY ==> !Seeds(i, j)
    ensures Folded(b.(b3 := b.b3[i := v], b4 := b4)) == Folded(b)
  {
    forall l: nat | l < KEY ensures SeedsOf(b.b3[i := v])[l] == SeedsOf(b.b3)[l] {
      SeedReplaced(b.b3, i, v, l);
    }
    assert SeedsOf(b.b3[i := v]) == SeedsOf(b.b3);
  }

  /** A change of one lane is seen in the hash, and which it was can be found out. */
  lemma LanesShowInTheHash(before: seq<Byte>, lane: nat, d: Byte)
    requires |before| == KEY && lane < KEY
    ensures KeyUnscrambled(KeyScrambled(Changed(before, lane, d))) ==
            Changed(KeyUnscrambled(KeyScrambled(before)), lane, d)
    ensures KeyScrambled(Changed(before, lane, d)) == KeyScrambled(before) <==> d == 0
  {
    KeyScrambleIsABijection(before, Changed(before, lane, d));
    KeyScrambleIsABijection(Changed(before, lane, d), before);
    XorIsZero(before[lane], d);
    assert Changed(before, lane, 0) == before by { XorIsZero(before[lane], 0); }
  }

  lemma XorIsZero(b: Byte, d: Byte)
    ensures XorOf(b, d) == b <==> d == 0
  {
  }

  // ---- The fold by its lanes ----

  /** Elements `from`, `from + 16`, ... */
  function Every16th<T>(s: seq<T>, from: nat): seq<T>
    decreases |s| - from
  {
    if from >= |s| then [] else [s[from]] + Every16th(s, from + 16)
  }

  function FoldLeft<T>(op: (T, T) -> T, a: T, s: seq<T>): T {
    if s == [] then a else op(FoldLeft(op, a, s[..|s| - 1]), s[|s| - 1])
  }

  lemma {:induction false} FoldLeftOfBoth<T>(op: (T, T) -> T, a: T, s: seq<T>, u: seq<T>)
    ensures FoldLeft(op, a, s + u) == FoldLeft(op, FoldLeft(op, a, s), u)
  {
    if u == [] {
      assert s + u == s;
    } else {
      var front, last := u[..|u| - 1], u[|u| - 1];
      assert (s + u)[..|s + u| - 1] == s + front && (s + u)[|s + u| - 1] == last;
      FoldLeftOfBoth(op, a, s, front);
    }
  }

  lemma LaterInLane(d: nat)
    requires d >= 16
    ensures (d - 16) % 16 == d % 16
  {
  }

  lemma {:induction false} Every16thOneMore<T>(s: seq<T>, e: T, from: nat)
    ensures Every16th(s + [e], from) ==
            Every16th(s, from) + if from <= |s| && (|s| - from) % 16 == 0 then [e] else []
    decreases |s| + 1 - from
  {
    if from > |s| {
    } else if from == |s| {
      assert Every16th(s + [e], from + 16) == [];
      assert (s + [e])[from] == e;
    } else {
      assert (s + [e])[from] == s[from];
      if |s| - from >= 16 {
        LaterInLane(|s| - from);
      }
      Every16thOneMore(s, e, from + 16);
    }
  }

  lemma {:induction false} LaneIsEvery16th<T>(op: (T, T) -> T, a: T, s: seq<T>, n: nat, lane: nat)
    requires n <= |s| && lane < 16
    ensures LaneFold(op, a, s, n, lane) == FoldLeft(op, a, Every16th(s[..n], lane))
  {
    if n == 0 {
    } else {
      LaneIsEvery16th(op, a, s, n - 1, lane);
      assert s[..n] == s[..n - 1] + [s[n - 1]];
      Every16thOneMore(s[..n - 1], s[n - 1], lane);
      InLane(n - 1, lane);
      FoldLeftOneMore(op, a, Every16th(s[..n - 1], lane), s[n - 1]);
    }
  }

  lemma InLane(m: nat, lane: nat)
    requires lane < 16
    ensures lane <= m && (m - lane) % 16 == 0 <==> m % 16 == lane
  {
  }

  lemma FoldLeftOneMore<T>(op: (T, T) -> T, a: T, s: seq<T>, e: T)
    ensures FoldLeft(op, a, s + [e]) == op(FoldLeft(op, a, s), e) && s + [] == s
  {
    assert (s + [e])[..|s|] == s;
  }

  /** The byte of the fourth buffer that lane `j` starts from. */
  function SeedIndex(j: nat): (k: nat)
    ensures k < 132
  {
    match j
    case 0 => 72
    case 1 => 88
    case 2 => 92
    case 4 => 20
    case 5 => 76
    case 6 => 128
    case 7 => 124
    case 8 => 40
    case 9 => 84
    case 10 => 120
    case _ => 0
  }

  function LaneSeed(b3: seq<Byte>, j: nat): Byte
    requires |b3| == 132
  {
    if j == 3 then 0x3d else if j <= 10 then 0xE1 + b3[SeedIndex(j)] else 0xE1
  }

  lemma SeedIndexAsListed(j: nat)
    requires j < 11 && j != 3
    ensures I0_INDEX[j] * 4 == SeedIndex(j)
  {
  }

  lemma SeedIsLaneSeed(b3: seq<Byte>, j: nat)
    requires |b3| == 132 && j < KEY
    ensures SeedByte(b3, j) == LaneSeed(b3, j)
  {
    if j < 11 && j != 3 {
      SeedIndexAsListed(j);
    }
  }

  /** Lane `j` is its seed and every sixteenth byte, from `j` on, of the first, the third and the second
      buffer, all combined. */
  function Lane(b: Buffers, j: nat): Byte
    requires b.Fit()
  {
    FoldLeft(XorOf, LaneSeed(b.b3, j), Every16th(b.b0, j) + (Every16th(b.b2, j) + Every16th(b.b1, j)))
  }

  function Lanes(b: Buffers): (r: seq<Byte>)
    requires b.Fit()
    ensures |r| == KEY
  {
    seq(16, j requires 0 <= j < 16 => Lane(b, j))
  }

  lemma FoldedLane(k: seq<Byte>, s: seq<Byte>, j: nat)
    requires |k| == KEY && j < KEY
    ensures FoldedIn(k, s, |s|)[j] == FoldLeft(XorOf, k[j], Every16th(s, j))
  {
    LaneIsEvery16th(XorOf, k[j], s, |s|, j);
    assert s[..|s|] == s;
  }

  lemma FoldedByLanes(b: Buffers)
    requires b.Fit()
    ensures Folded(b) == Lanes(b)
  {
    var seed := SeedsOf(b.b3);
    var k0 := FoldedIn(seed, b.b0, |b.b0|);
    var k2 := FoldedIn(k0, b.b2, |b.b2|);
    forall j: nat | j < 16
      ensures Folded(b)[j] == Lane(b, j)
    {
      SeedIsLaneSeed(b.b3, j);
      FoldedLane(seed, b.b0, j);
      FoldedLane(k0, b.b2, j);
      FoldedLane(k2, b.b1, j);
      FoldLeftOfBoth(XorOf, LaneSeed(b.b3, j), Every16th(b.b0, j), Every16th(b.b2, j) + Every16th(b.b1, j));
      FoldLeftOfBoth(XorOf, k0[j], Every16th(b.b2, j), Every16th(b.b1, j));
    }
  }

  // ---- The scrambles as recurrences ----

  /** Where a step finds the three other bytes in the history. */
  datatype Reads = Reads(x: nat, y: nat, z: nat)

  type ReadsAt = nat -> Reads

  function At(h: seq<Byte>, k: nat): Byte {
    if k < |h| then h[k] else 0
  }

  /** The buffer and everything that is ever written into it, in the order of writing. Step `i` overwrites the
      byte that is number `i`. */
  function History(f: Rewrite, at: ReadsAt, b: seq<Byte>, n: nat): (h: seq<Byte>)
    ensures |h| == |b| + n
  {
    if n == 0 then b
    else
      var h := History(f, at, b, n - 1);
      h + [Written(f, h, at(n - 1), n - 1)]
  }

  /** The byte at `k` is in the buffer when step `i` comes, in the cell `cell`. */
  predicate Held(k: nat, cell: nat, i: nat, size: nat)
    requires size > 0
  {
    i <= k < i + size && k % size == cell
  }

  /** The bytes of the history that the steps read are those in the cells they read. */
  ghost predicate ReadsTheCells(at: ReadsAt, t: Taps)
    requires t.size > 0
  {
    forall i: nat {:trigger at(i)} ::
      && Held(at(i).x, WrappedIndex(i, t.x, t.size), i, t.size)
      && Held(at(i).y, WrappedIndex(i, t.y, t.size), i, t.size)
      && Held(at(i).z, WrappedIndex(i, t.z, t.size), i, t.size)
  }

  /** The buffer holds the last bytes of the history. */
  ghost predicate HoldsLast(b: seq<Byte>, h: seq<Byte>, n: nat)
    requires b != []
  {
    |h| == |b| + n && forall k: nat :: n <= k < n + |b| ==> b[k % |b|] == h[k]
  }

  ghost predicate SameRewrite(f: Rewrite, g: Rewrite) {
    forall x, y, z, w :: f(x, y, z, w) == g(x, y, z, w)
  }

  lemma OneMoreWritten(f: Rewrite, t: Taps, b: seq<Byte>, h: seq<Byte>, r: Reads, i: nat)
    requires |b| == t.size > 0 && HoldsLast(b, h, i)
    requires Held(r.x, WrappedIndex(i, t.x, t.size), i, t.size)
    requires Held(r.y, WrappedIndex(i, t.y, t.size), i, t.size)
    requires Held(r.z, WrappedIndex(i, t.z, t.size), i, t.size)
    ensures HoldsLast(Rewritten(f, t, b, i), h + [Written(f, h, r, i)], i + 1)
  {
    var size := t.size;
    var v := Written(f, h, r, i);
    assert b[i % size] == h[i];
    assert Rewritten(f, t, b, i) == b[i % size := v];
    forall k: nat | i + 1 <= k < i + 1 + size
      ensures b[i % size := v][k % size] == (h + [v])[k]
    {
      if k == i + size {
        OneModulusMore(i, size);
      } else {
        CloseRemaindersDiffer(i, k, size);
      }
    }
  }

  /** The byte that step `i` writes. */
  function Written(f: Rewrite, h: seq<Byte>, r: Reads, i: nat): Byte {
    f(At(h, r.x), At(h, r.y), At(h, r.z), At(h, i))
  }

  lemma StepWrites(f: Rewrite, g: Rewrite, at: ReadsAt, t: Taps, b: seq<Byte>, h: seq<Byte>, i: nat)
    requires |b| == t.size > 0 && ReadsTheCells(at, t) && SameRewrite(f, g) && HoldsLast(b, h, i)
    ensures |StepOf(f, t)(i, b)| == t.size
    ensures HoldsLast(StepOf(f, t)(i, b), h + [Written(g, h, at(i), i)], i + 1)
  {
    var r := at(i);
    StepAt(f, t, i, b);
    OneMoreWritten(f, t, b, h, r, i);
    assert Written(f, h, r, i) == Written(g, h, r, i);
  }

  /** One step writes the next byte of the history. */
  ghost predicate WritesHistory(step: Step, g: Rewrite, at: ReadsAt, size: nat) {
    forall i: nat, b, h {:trigger step(i, b), HoldsLast(b, h, i)} ::
      |b| == size > 0 && HoldsLast(b, h, i) ==>
        |step(i, b)| == size && HoldsLast(step(i, b), h + [Written(g, h, at(i), i)], i + 1)
  }

  lemma {:induction false} StepsWriteHistory(step: Step, g: Rewrite, at: ReadsAt, b: seq<Byte>, n: nat)
    requires b != [] && WritesHistory(step, g, at, |b|)
    ensures |Scrambled(step, b, n)| == |b| && HoldsLast(Scrambled(step, b, n), History(g, at, b, n), n)
  {
    if n == 0 {
      forall k: nat | k < |b| ensures b[k % |b|] == b[k] {
        LessIsItsRemainder(k, |b|);
      }
    } else {
      StepsWriteHistory(step, g, at, b, n - 1);
    }
  }

  /** Scrambling in place writes the recurrence. */
  lemma ScrambledIsHistory(f: Rewrite, g: Rewrite, at: ReadsAt, t: Taps, b: seq<Byte>, n: nat)
    requires |b| == t.size > 0 && ReadsTheCells(at, t) && SameRewrite(f, g)
    ensures |Scrambled(StepOf(f, t), b, n)| == t.size
    ensures HoldsLast(Scrambled(StepOf(f, t), b, n), History(g, at, b, n), n)
  {
    var step := StepOf(f, t);
    forall i: nat, c, h | |c| == t.size && HoldsLast(c, h, i)
      ensures |step(i, c)| == t.size && HoldsLast(step(i, c), h + [Written(g, h, at(i), i)], i + 1)
    {
      StepWrites(f, g, at, t, c, h, i);
    }
    StepsWriteHistory(step, g, at, b, n);
  }

  /** After whole passes the buffer is the end of the history. */
  lemma PassesEndTheHistory(b: seq<Byte>, h: seq<Byte>, passes: nat)
    requires b != [] && HoldsLast(b, h, passes * |b|)
    ensures b == h[passes * |b|..]
  {
    forall c: nat | c < |b| ensures b[c] == h[passes * |b| + c] {
      CellAfterPasses(|b|, passes, c);
      assert b[(passes * |b| + c) % |b|] == h[passes * |b| + c];
    }
  }

  lemma {:induction false} CellAfterPasses(size: nat, passes: nat, c: nat)
    requires c < size
    ensures (passes * size + c) % size == c
  {
    if passes == 0 {
      LessIsItsRemainder(c, size);
    } else {
      CellAfterPasses(size, passes - 1, c);
      assert passes * size + c == (passes - 1) * size + c + size;
      OneModulusMore((passes - 1) * size + c, size);
    }
  }

  /** The bytes written 155, 57 and 13 steps before; where the step number is smaller, the difference wraps
      around 2^32 and names a byte that was written 46 steps later or is still to be overwritten. */
  function BufferReads(): ReadsAt {
    (i: nat) => Reads(if i < 155 then i + 210 - 155 + 46 else i + 210 - 155,
                      if i < 57 then i + 210 - 57 + 46 else i + 210 - 57,
                      if i < 13 then i + 46 - 13 else i + 210 - 13)
  }

  function BufferMix(x: Byte, y: Byte, z: Byte, w: Byte): Byte {
    y.RotateLeft(5) + (z.RotateLeft(3) ^ w) - x.RotateLeft(7)
  }

  /** 177 steps before is 1 step before, in 16 cells, and 37 is 5. */
  function KeyReads(): ReadsAt {
    (i: nat) => Reads(i + 16 - 7, i + 16 - 5, i + 16 - 1)
  }

  function KeyMix(x: Byte, z: Byte, w: Byte, y: Byte): Byte {
    x.RotateLeft(1) ^ y ^ z.RotateLeft(6) ^ w.RotateLeft(5)
  }

  lemma BufferReadHeld(i: nat, k: nat)
    requires k == 155 || k == 57 || k == 13
    ensures var p := if i >= k then i + 210 - k else if k == 13 then i + 46 - 13 else i + 210 - k + 46;
            Held(p, WrappedIndex(i, k, SIZE), i, SIZE)
  {
    if i >= k {
      OnceAround(i - k);
    } else {
      WrapShiftsBy46(i, k);
      OnceAround(i - k + 46);
    }
  }

  lemma OnceAround(m: int)
    ensures (m + 210) % 210 == m % 210
  {
  }

  lemma BufferReadsTheCells()
    ensures ReadsTheCells(BufferReads(), BUFFER_TAPS)
  {
    forall i: nat {:trigger BufferReads()(i)}
      ensures Held(BufferReads()(i).x, WrappedIndex(i, 155, SIZE), i, SIZE)
      ensures Held(BufferReads()(i).y, WrappedIndex(i, 57, SIZE), i, SIZE)
      ensures Held(BufferReads()(i).z, WrappedIndex(i, 13, SIZE), i, SIZE)
    {
      BufferReadHeld(i, 155);
      BufferReadHeld(i, 57);
      BufferReadHeld(i, 13);
    }
  }

  lemma KeyReadHeld(i: nat, k: nat)
    requires k == 7 || k == 37 || k == 177
    ensures var p := i + 16 - (if k == 7 then 7 else if k == 37 then 5 else 1);
            Held(p, WrappedIndex(i, k, KEY), i, KEY)
  {
  }

  lemma KeyReadsTheCells()
    ensures ReadsTheCells(KeyReads(), KEY_TAPS)
  {
    forall i: nat {:trigger KeyReads()(i)}
      ensures Held(KeyReads()(i).x, WrappedIndex(i, 7, KEY), i, KEY)
      ensures Held(KeyReads()(i).y, WrappedIndex(i, 37, KEY), i, KEY)
      ensures Held(KeyReads()(i).z, WrappedIndex(i, 177, KEY), i, KEY)
    {
      KeyReadHeld(i, 7);
      KeyReadHeld(i, 37);
      KeyReadHeld(i, 177);
    }
  }

  lemma RolIsRotation(b: Byte)
    ensures Rol8(b as bv32, 5) == b.RotateLeft(5) as bv32 && Rol8(b as bv32, 3) == b.RotateLeft(3) as bv32
    ensures Rol8(b as bv32, 7) == b.RotateLeft(7) as bv32
  {
  }

  type Combination = (bv32, bv32, Byte, bv32) -> Byte

  function LowByte(a: bv32, b: bv32, w: Byte, c: bv32): Byte {
    ((a + (b ^ (w as bv32)) - c) & 0xff) as Byte
  }

  lemma RotationsInstead(combine: Combination, x: Byte, y: Byte, z: Byte, w: Byte)
    ensures combine(Rol8(y as bv32, 5), Rol8(z as bv32, 3), w, Rol8(x as bv32, 7)) ==
            combine(y.RotateLeft(5) as bv32, z.RotateLeft(3) as bv32, w, x.RotateLeft(7) as bv32)
  {
    RolIsRotation(x);
    RolIsRotation(y);
    RolIsRotation(z);
  }

  lemma MixedOfRotations(x: Byte, y: Byte, z: Byte, w: Byte)
    ensures Mixed(x, y, z, w) ==
            ((((y.RotateLeft(5)) as bv32) + (((z.RotateLeft(3)) as bv32) ^ (w as bv32)) -
              ((x.RotateLeft(7)) as bv32)) & 0xff) as Byte
  {
    RotationsInstead(LowByte, x, y, z, w);
  }

  lemma LowByteOfRotations(x: Byte, y: Byte, z: Byte, w: Byte)
    ensures y.RotateLeft(5) + (z.RotateLeft(3) ^ w) - x.RotateLeft(7) ==
            ((((y.RotateLeft(5)) as bv32) + (((z.RotateLeft(3)) as bv32) ^ (w as bv32)) -
              ((x.RotateLeft(7)) as bv32)) & 0xff) as Byte
  {
  }

  lemma MixedAsBytes(x: Byte, y: Byte, z: Byte, w: Byte)
    ensures BufferMix(x, y, z, w) == Mixed(x, y, z, w)
  {
    LowByteOfRotations(x, y, z, w);
    MixedOfRotations(x, y, z, w);
  }

  lemma KeyMixedAsBytes(x: Byte, z: Byte, w: Byte, y: Byte)
    ensures KeyMixed(x, z, w, y) == KeyMix(x, z, w, y)
  {
  }

  /** The 840 steps: a recurrence of order 210 that runs four times around the buffer. */
  lemma BufferScrambleIsARecurrence(b: seq<Byte>)
    requires |b| == SIZE
    ensures BufferScrambled(b) == History(BufferMix, BufferReads(), b, 840)[840..]
  {
    forall x, y, z, w ensures Mixed(x, y, z, w) == BufferMix(x, y, z, w) { MixedAsBytes(x, y, z, w); }
    BufferReadsTheCells();
    ScrambledIsHistory(Mixed, BufferMix, BufferReads(), BUFFER_TAPS, b, STEPS);
    PassesEndTheHistory(BufferScrambled(b), History(BufferMix, BufferReads(), b, STEPS), 4);
  }

  /** The 256 steps on the key: a linear recurrence of order 16. */
  lemma KeyScrambleIsARecurrence(k: seq<Byte>)
    requires |k| == KEY
    ensures KeyScrambled(k) == History(KeyMix, KeyReads(), k, 256)[256..]
  {
    forall x, z, w, y ensures KeyMixed(x, z, w, y) == KeyMix(x, z, w, y) { KeyMixedAsBytes(x, z, w, y); }
    KeyReadsTheCells();
    ScrambledIsHistory(KeyMixed, KeyMix, KeyReads(), KEY_TAPS, k, KEY_STEPS);
    PassesEndTheHistory(KeyScrambled(k), History(KeyMix, KeyReads(), k, KEY_STEPS), 16);
  }

  // ---- The hash ----

  const BUFFER0: seq<Byte> := [
    0x96, 0x5F, 0xC6, 0x53, 0xF8, 0x46, 0xCC, 0x18, 0xDF, 0xBE, 0xB2, 0xF8, 0x38, 0xD7, 0xEC,
    0x22, 0x03, 0xD1, 0x20, 0x8F]

  const BUFFER2: seq<Byte> := [
    0x43, 0x54, 0x62, 0x7A, 0x18, 0xC3, 0xD6, 0xB3, 0x9A, 0x56, 0xF6, 0x1C, 0x14, 0x3F, 0x0C,
    0x1D, 0x3B, 0x36, 0x83, 0xB1, 0x39, 0x51, 0x4A, 0xAA, 0x09, 0x3E, 0xFE, 0x44, 0xAF, 0xDE,
    0xC3, 0x20, 0x9D, 0x42, 0x3A]

  const BUFFER4: seq<Byte> := [
    0xED, 0x25, 0xD1, 0xBB, 0xBC, 0x27, 0x9F, 0x02, 0xA2, 0xA9, 0x11, 0x00, 0x0C, 0xB3, 0x52,
    0xC0, 0xBD, 0xE3, 0x1B, 0x49, 0xC7]

  /** The buffers as `garble` gets them. */
  function Prepared(buffer1: seq<Byte>): Buffers {
    Buffers(BUFFER0, buffer1, BUFFER2, seq(132, _ => 0), BUFFER4)
  }

  ghost predicate KeepsSizes(garble: Buffers -> Buffers) {
    forall b: Buffers :: b.Fit() ==> garble(b).Fit()
  }

  ghost function FoldOf(garble: Buffers -> Buffers, blockIn: seq<Byte>): (r: seq<Byte>)
    requires KeepsSizes(garble) && |blockIn| == INPUT
    ensures |r| == KEY
  {
    Folded(garble(Prepared(BufferScrambled(Loaded(blockIn)))))
  }

  /** The loaded block by its bytes. */
  function LoadedBytes(blockIn: seq<Byte>): (r: seq<Byte>)
    requires |blockIn| == INPUT
    ensures |r| == SIZE
  {
    seq(SIZE, i requires 0 <= i < SIZE => blockIn[i % 64 / 4 * 4 + (3 - i % 4)])
  }

  lemma LoadedByteByByte(blockIn: seq<Byte>)
    requires |blockIn| == INPUT
    ensures Loaded(blockIn) == LoadedBytes(blockIn)
  {
    forall i: nat | i < SIZE ensures Loaded(blockIn)[i] == LoadedBytes(blockIn)[i] {
      ByteOfWord(blockIn, i % 64 / 4, 3 - i % 4);
    }
  }

  /** The hash by its recurrences: the block's bytes run through the first, `garble` makes the buffers, their
      lanes run through the second. */
  ghost predicate IsHash(garble: Buffers -> Buffers, blockIn: seq<Byte>, hash: seq<Byte>)
    requires KeepsSizes(garble) && |blockIn| == INPUT
  {
    var b := garble(Prepared(History(BufferMix, BufferReads(), LoadedBytes(blockIn), 840)[840..]));
    b.Fit() && hash == History(KeyMix, KeyReads(), Lanes(b), 256)[256..]
  }

  lemma HashByItsRecurrences(garble: Buffers -> Buffers, blockIn: seq<Byte>)
    requires KeepsSizes(garble) && |blockIn| == INPUT
    ensures IsHash(garble, blockIn, KeyScrambled(FoldOf(garble, blockIn)))
  {
    LoadedByteByByte(blockIn);
    BufferScrambleIsARecurrence(Loaded(blockIn));
    var b := garble(Prepared(BufferScrambled(Loaded(blockIn))));
    FoldedByLanes(b);
    KeyScrambleIsARecurrence(Folded(b));
  }

  /** `keyOut` is only written: its former content, which the source calls a seed, plays no part. */
  method SapHash(garble: Buffers -> Buffers, blockIn: seq<Byte>, keyOut: array<Byte>)
    requires KeepsSizes(garble) && |blockIn| == INPUT && keyOut.Length == KEY
    modifies keyOut
    ensures keyOut[..] == KeyScrambled(FoldOf(garble, blockIn)) && IsHash(garble, blockIn, keyOut[..])
  {
    HashByItsRecurrences(garble, blockIn);
    var buffer1 := new Byte[SIZE](_ => 0);
    Load(blockIn, buffer1);
    Scramble(Mixed, BUFFER_TAPS, buffer1, STEPS);
    var b := garble(Prepared(buffer1[..]));
    FoldSeed(b.b3, keyOut);
    FoldIn(b.b0, keyOut);
    FoldIn(b.b2, keyOut);
    FoldIn(b.b1, keyOut);
    assert keyOut[..] == Folded(b);
    ScrambleKey(keyOut);
  }

  /** Two blocks have the same hash exactly if their folds agree: neither scramble loses anything. */
  lemma HashesAgreeIffFoldsAgree(garble: Buffers -> Buffers, blockIn: seq<Byte>, blockIn': seq<Byte>)
    requires KeepsSizes(garble) && |blockIn| == INPUT && |blockIn'| == INPUT
    ensures KeyScrambled(FoldOf(garble, blockIn)) == KeyScrambled(FoldOf(garble, blockIn'))
            <==> FoldOf(garble, blockIn) == FoldOf(garble, blockIn')
  {
    KeyScrambleIsABijection(FoldOf(garble, blockIn), FoldOf(garble, blockIn'));
  }
}
