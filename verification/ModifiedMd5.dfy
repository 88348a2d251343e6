/** The digest of FairPlay: the operations of MD5 (RFC 1321) on words decoded in big-endian order, with
    five swaps of words, chosen by the registers, between its second and third round. */
module ModifiedMd5 {
  import opened Words

  const BLOCK_WORDS := 16
  const STEPS := 64

  type Block = w: seq<Word> | |w| == BLOCK_WORDS witness seq(BLOCK_WORDS, _ => ZERO)

  const K: seq<bv32> := [
    0xd76aa478, 0xe8c7b756, 0x242070db, 0xc1bdceee, 0xf57c0faf, 0x4787c62a, 0xa8304613, 0xfd469501,
    0x698098d8, 0x8b44f7af, 0xffff5bb1, 0x895cd7be, 0x6b901122, 0xfd987193, 0xa679438e, 0x49b40821,
    0xf61e2562, 0xc040b340, 0x265e5a51, 0xe9b6c7aa, 0xd62f105d, 0x02441453, 0xd8a1e681, 0xe7d3fbc8,
    0x21e1cde6, 0xc33707d6, 0xf4d50d87, 0x455a14ed, 0xa9e3e905, 0xfcefa3f8, 0x676f02d9, 0x8d2a4c8a,
    0xfffa3942, 0x8771f681, 0x6d9d6122, 0xfde5380c, 0xa4beea44, 0x4bdecfa9, 0xf6bb4b60, 0xbebfbc70,
    0x289b7ec6, 0xeaa127fa, 0xd4ef3085, 0x04881d05, 0xd9d4d039, 0xe6db99e5, 0x1fa27cf8, 0xc4ac5665,
    0xf4292244, 0x432aff97, 0xab9423a7, 0xfc93a039, 0x655b59c3, 0x8f0ccc92, 0xffeff47d, 0x85845dd1,
    0x6fa87e4f, 0xfe2ce6e0, 0xa3014314, 0x4e0811a1, 0xf7537e82, 0xbd3af235, 0x2ad7d2bb, 0xeb86d391]

  function Constant(i: nat): bv32 {
    if i < |K| then K[i] else 0
  }

  const SHIFTS: seq<seq<nat>> := [[7, 12, 17, 22], [5, 9, 14, 20], [4, 11, 16, 23], [6, 10, 15, 21]]

  /** `SHIFT[i]`: each round repeats its four shifts. */
  function Shift(i: nat): (s: nat)
    ensures s < 32
  {
    SHIFTS[i / 16 % 4][i % 4]
  }

  function F(b: bv32, c: bv32, d: bv32): bv32 {
    (b & c) | (!b & d)
  }

  function G(b: bv32, c: bv32, d: bv32): bv32 {
    (b & d) | (c & !d)
  }

  function H(b: bv32, c: bv32, d: bv32): bv32 {
    b ^ c ^ d
  }

  function I(b: bv32, c: bv32, d: bv32): bv32 {
    c ^ (b | !d)
  }

  function Mix(i: nat, b: bv32, c: bv32, d: bv32): bv32 {
    if i < 16 then F(b, c, d) else if i < 32 then G(b, c, d) else if i < 48 then H(b, c, d) else I(b, c, d)
  }

  function WordIndex(i: nat): (j: nat)
    ensures j < BLOCK_WORDS
  {
    if i < 16 then i
    else if i < 32 then (5 * i + 1) % 16
    else if i < 48 then (3 * i + 5) % 16
    else 7 * i % 16
  }

  /** A word read in big-endian order. */
  function Input(w: Word): bv32 {
    ((w.b0 as bv32) << 24) | ((w.b1 as bv32) << 16) | ((w.b2 as bv32) << 8) | (w.b3 as bv32)
  }

  // ---- One step on the registers ----

  datatype Registers = Registers(a: bv32, b: bv32, c: bv32, d: bv32)

  function NewRegister(a: bv32, b: bv32, input: bv32, k: bv32, mix: bv32, s: nat): bv32
    requires s < 32
  {
    (a + input + k + mix).RotateLeft(s) + b
  }

  function OldRegister(z: bv32, b: bv32, input: bv32, k: bv32, mix: bv32, s: nat): bv32
    requires s < 32
  {
    (z - b).RotateRight(s) - mix - k - input
  }

  lemma OldInline(a: bv32, b: bv32, input: bv32, k: bv32, mix: bv32, s: nat)
    requires s < 32
    ensures OldRegister((a + input + k + mix).RotateLeft(s) + b, b, input, k, mix, s) == a
  {
  }

  lemma NewInline(z: bv32, b: bv32, input: bv32, k: bv32, mix: bv32, s: nat)
    requires s < 32
    ensures NewRegister((z - b).RotateRight(s) - mix - k - input, b, input, k, mix, s) == z
  {
  }

  lemma RegisterUndone(a: bv32, b: bv32, input: bv32, k: bv32, mix: bv32, s: nat)
    requires s < 32
    ensures OldRegister(NewRegister(a, b, input, k, mix, s), b, input, k, mix, s) == a
    ensures NewRegister(OldRegister(a, b, input, k, mix, s), b, input, k, mix, s) == a
  {
    OldInline(a, b, input, k, mix, s);
    NewInline(a, b, input, k, mix, s);
  }

  function Turn(i: nat, r: Registers, input: bv32): Registers
  {
    var z := NewRegister(r.a, r.b, input, Constant(i), Mix(i, r.b, r.c, r.d), Shift(i));
    Registers(r.d, z, r.b, r.c)
  }

  function TurnBack(i: nat, r: Registers, input: bv32): Registers
  {
    var a := OldRegister(r.b, r.c, input, Constant(i), Mix(i, r.c, r.d, r.a), Shift(i));
    Registers(a, r.c, r.d, r.a)
  }

  lemma TurnUndone(i: nat, r: Registers, input: bv32)
    ensures TurnBack(i, Turn(i, r, input), input) == r && Turn(i, TurnBack(i, r, input), input) == r
  {
    RegisterUndone(r.a, r.b, input, Constant(i), Mix(i, r.b, r.c, r.d), Shift(i));
    RegisterUndone(r.b, r.c, input, Constant(i), Mix(i, r.c, r.d, r.a), Shift(i));
  }

  // ---- The swaps ----

  /** Hexadecimal digit `k` of a register. */
  function Digit(v: bv32, k: nat): (n: nat)
    requires k < 4
    ensures n < BLOCK_WORDS
  {
    (((v & (0xf << (4 * k))) >> (4 * k)) & 0xf) as nat
  }

  function Swap(w: Block, x: nat, y: nat): Block
    requires x < BLOCK_WORDS && y < BLOCK_WORDS
  {
    w[x := w[y]][y := w[x]]
  }

  /** The positions that the five swaps exchange. */
  datatype Pairs = Pairs(x0: nat, y0: nat, x1: nat, y1: nat, x2: nat, y2: nat, x3: nat, y3: nat, x4: nat, y4: nat) {
    predicate Valid() {
      && x0 < BLOCK_WORDS && x1 < BLOCK_WORDS && x2 < BLOCK_WORDS && x3 < BLOCK_WORDS && x4 < BLOCK_WORDS
      && y0 < BLOCK_WORDS && y1 < BLOCK_WORDS && y2 < BLOCK_WORDS && y3 < BLOCK_WORDS && y4 < BLOCK_WORDS
    }
  }

  function PairsOf(r: Registers): (p: Pairs)
    ensures p.Valid()
  {
    Pairs(Digit(r.a, 0), Digit(r.b, 0), Digit(r.c, 0), Digit(r.d, 0), Digit(r.a, 1), Digit(r.b, 1),
          Digit(r.a, 2), Digit(r.b, 2), Digit(r.a, 3), Digit(r.b, 3))
  }

  function Swapped(p: Pairs, w: Block): Block
    requires p.Valid()
  {
    Swap(Swap(Swap(Swap(Swap(w, p.x0, p.y0), p.x1, p.y1), p.x2, p.y2), p.x3, p.y3), p.x4, p.y4)
  }

  /** The same swaps in the opposite order. */
  function Unswapped(p: Pairs, w: Block): Block
    requires p.Valid()
  {
    Swap(Swap(Swap(Swap(Swap(w, p.x4, p.y4), p.x3, p.y3), p.x2, p.y2), p.x1, p.y1), p.x0, p.y0)
  }

  lemma SwapTwice(w: Block, x: nat, y: nat)
    requires x < BLOCK_WORDS && y < BLOCK_WORDS
    ensures Swap(Swap(w, x, y), x, y) == w && multiset(Swap(w, x, y)) == multiset(w)
  {
  }

  /** Together the swaps permute the sixteen words, and running them backwards undoes them. */
  lemma SwapsPermute(p: Pairs, w: Block)
    requires p.Valid()
    ensures multiset(Swapped(p, w)) == multiset(w)
    ensures Unswapped(p, Swapped(p, w)) == w
  {
    var w1 := Swap(w, p.x0, p.y0);
    var w2 := Swap(w1, p.x1, p.y1);
    var w3 := Swap(w2, p.x2, p.y2);
    var w4 := Swap(w3, p.x3, p.y3);
    SwapTwice(w, p.x0, p.y0);
    SwapTwice(w1, p.x1, p.y1);
    SwapTwice(w2, p.x2, p.y2);
    SwapTwice(w3, p.x3, p.y3);
    SwapTwice(w4, p.x4, p.y4);
  }

  lemma UnswapsPermute(p: Pairs, w: Block)
    requires p.Valid()
    ensures Swapped(p, Unswapped(p, w)) == w
  {
    SwapsPermute(Pairs(p.x4, p.y4, p.x3, p.y3, p.x2, p.y2, p.x1, p.y1, p.x0, p.y0), w);
  }

  // ---- Steps on registers and block ----

  datatype State = State(regs: Registers, words: Block)

  function Step(i: nat, s: State): State {
    var regs := Turn(i, s.regs, Input(s.words[WordIndex(i)]));
    State(regs, if i == 31 then Swapped(PairsOf(regs), s.words) else s.words)
  }

  function StepBack(i: nat, s: State): State {
    var words := if i == 31 then Unswapped(PairsOf(s.regs), s.words) else s.words;
    State(TurnBack(i, s.regs, Input(words[WordIndex(i)])), words)
  }

  lemma StepUndone(i: nat, s: State)
    ensures StepBack(i, Step(i, s)) == s && multiset(Step(i, s).words) == multiset(s.words)
  {
    TurnUndone(i, s.regs, Input(s.words[WordIndex(i)]));
    SwapsPermute(PairsOf(Step(i, s).regs), s.words);
  }

  lemma StepRedone(i: nat, s: State)
    ensures Step(i, StepBack(i, s)) == s
  {
    UnswapsPermute(PairsOf(s.regs), s.words);
    TurnUndone(i, s.regs, Input(StepBack(i, s).words[WordIndex(i)]));
  }

  type Steps = (nat, State) -> State

  /** Steps 0, ..., `n - 1`. */
  function Run(step: Steps, s: State, n: nat): State {
    if n == 0 then s else step(n - 1, Run(step, s, n - 1))
  }

  /** Steps `n - 1`, ..., 0. */
  function RunBack(back: Steps, s: State, n: nat): State
    decreases n
  {
    if n == 0 then s else RunBack(back, back(n - 1, s), n - 1)
  }

  lemma {:induction false} RunUndone(step: Steps, back: Steps, s: State, n: nat)
    requires forall i: nat, t :: back(i, step(i, t)) == t
    ensures RunBack(back, Run(step, s, n), n) == s
  {
    if n == 0 {
    } else {
      RunUndone(step, back, s, n - 1);
    }
  }

  lemma {:induction false} RunRedone(step: Steps, back: Steps, s: State, n: nat)
    requires forall i: nat, t :: step(i, back(i, t)) == t
    ensures Run(step, RunBack(back, s, n), n) == s
    decreases n
  {
    if n == 0 {
    } else {
      RunRedone(step, back, back(n - 1, s), n - 1);
    }
  }

  lemma {:induction false} RunPermutes(step: Steps, s: State, n: nat)
    requires forall i: nat, t :: multiset(step(i, t).words) == multiset(t.words)
    ensures multiset(Run(step, s, n).words) == multiset(s.words)
  {
    if n == 0 {
    } else {
      RunPermutes(step, s, n - 1);
    }
  }

  /** The 64 steps are a bijection of registers and block, and leave the same sixteen words. */
  lemma StepsAreABijection(s: State, t: State)
    ensures Run(Step, s, STEPS) == Run(Step, t, STEPS) <==> s == t
    ensures Run(Step, RunBack(StepBack, s, STEPS), STEPS) == s
    ensures multiset(Run(Step, s, STEPS).words) == multiset(s.words)
  {
    forall i: nat, t
      ensures StepBack(i, Step(i, t)) == t && Step(i, StepBack(i, t)) == t
      ensures multiset(Step(i, t).words) == multiset(t.words)
    {
      StepUndone(i, t);
      StepRedone(i, t);
    }
    RunUndone(Step, StepBack, s, STEPS);
    RunUndone(Step, StepBack, t, STEPS);
    RunRedone(Step, StepBack, s, STEPS);
    RunPermutes(Step, s, STEPS);
  }

  // ---- RFC 1321 ----

  /** The variables A, B, C and D of section 3.4 of RFC 1321. */
  type Variables = v: seq<bv32> | |v| == 4 witness [0, 0, 0, 0]

  /** The variable that operation `i` sets: A, D, C, B, A, ... */
  function Target(i: nat): (t: nat)
    ensures t < 4
  {
    (4 - i % 4) % 4
  }

  /** A block as the RFC sees it: sixteen numbers. */
  type Message = x: seq<bv32> | |x| == BLOCK_WORDS witness seq(BLOCK_WORDS, _ => 0)

  /** The functions of the four rounds, bit by bit: `if x then y else z`, `if z then x else y`, parity, and
      `y` unlike `z` but not `x`. */
  function RfcFunction(round: nat, x: bv32, y: bv32, z: bv32): bv32 {
    if round == 0 then z ^ (x & (y ^ z))
    else if round == 1 then y ^ (z & (x ^ y))
    else if round == 2 then x ^ y ^ z
    else !(y ^ (z & !x))
  }

  /** How far each round shifts what goes into A, B, C and D. */
  const ROUND_SHIFTS: seq<seq<nat>> := [[7, 22, 17, 12], [5, 20, 14, 9], [4, 23, 16, 11], [6, 21, 15, 10]]

  function RfcShift(i: nat): (s: nat)
    ensures s < 32
  {
    ROUND_SHIFTS[i / 16 % 4][Target(i)]
  }

  lemma ShiftsAsListed(i: nat)
    ensures Shift(i) == RfcShift(i)
  {
  }

  lemma FunctionsAsDefined(i: nat, x: bv32, y: bv32, z: bv32)
    requires i < STEPS
    ensures Mix(i, x, y, z) == RfcFunction(i / 16, x, y, z)
  {
    FAndG(x, y, z);
    HAndI(x, y, z);
  }

  lemma FAndG(x: bv32, y: bv32, z: bv32)
    ensures F(x, y, z) == z ^ (x & (y ^ z)) && G(x, y, z) == y ^ (z & (x ^ y))
  {
  }

  lemma HAndI(x: bv32, y: bv32, z: bv32)
    ensures H(x, y, z) == x ^ y ^ z && I(x, y, z) == !(y ^ (z & !x))
  {
  }

  // The words of the last three rounds in the order of the RFC; the first round takes them in turn.
  const ROUND_2: seq<nat> := [1, 6, 11, 0, 5, 10, 15, 4, 9, 14, 3, 8, 13, 2, 7, 12]
  const ROUND_3: seq<nat> := [5, 8, 11, 14, 1, 4, 7, 10, 13, 0, 3, 6, 9, 12, 15, 2]
  const ROUND_4: seq<nat> := [0, 7, 14, 5, 12, 3, 10, 1, 8, 15, 6, 13, 4, 11, 2, 9]

  /** The word that operation `i` uses. */
  function RfcWord(i: nat): (j: nat)
    ensures j < BLOCK_WORDS
  {
    if i < 16 then i
    else if i < 32 then ROUND_2[i - 16]
    else if i < 48 then ROUND_3[i - 32]
    else if i < 64 then ROUND_4[i - 48]
    else 0
  }

  lemma Round2AsListed(j: nat)
    requires j < 16
    ensures WordIndex(16 + j) == ROUND_2[j]
  {
  }

  lemma Round3AsListed(j: nat)
    requires j < 16
    ensures WordIndex(32 + j) == ROUND_3[j]
  {
  }

  lemma Round4AsListed(j: nat)
    requires j < 16
    ensures WordIndex(48 + j) == ROUND_4[j]
  {
  }

  /** The index formulas of the code pick the words that the RFC lists. */
  lemma WordsAsListed(i: nat)
    requires i < STEPS
    ensures WordIndex(i) == RfcWord(i)
  {
    if i < 16 {
    } else if i < 32 {
      Round2AsListed(i - 16);
    } else if i < 48 {
      Round3AsListed(i - 32);
    } else {
      Round4AsListed(i - 48);
    }
  }

  /** `a = b + ((a + mix(b, c, d) + X[k] + T[i]) <<< s)`, where a, b, c and d are the four variables
      from the one that is set. */
  function Operation(i: nat, v: Variables, x: Message): Variables {
    var t := Target(i);
    var a, b, c, d := v[t], v[(t + 1) % 4], v[(t + 2) % 4], v[(t + 3) % 4];
    v[t := Sum(a, b, RfcFunction(i / 16, b, c, d), x[RfcWord(i)], if i < 64 then K[i] else 0, RfcShift(i))]
  }

  function Sum(a: bv32, b: bv32, mix: bv32, x: bv32, t: bv32, s: nat): bv32
    requires s < 32
  {
    b + (a + mix + x + t).RotateLeft(s)
  }

  type Operations = (nat, Variables) -> Variables

  /** The operations on one block. */
  function On(x: Message): Operations {
    (i: nat, v: Variables) => Operation(i, v, x)
  }

  /** Operations `from`, ..., `to - 1`. */
  function Perform(ops: Operations, v: Variables, from: nat, to: nat): Variables
    requires from <= to
  {
    if from == to then v else ops(to - 1, Perform(ops, v, from, to - 1))
  }

  /** The registers of the program take the variables in the order in which the next operation names
      them. */
  function Roles(v: Variables, i: nat): Registers {
    var t := Target(i);
    Registers(v[t], v[(t + 1) % 4], v[(t + 2) % 4], v[(t + 3) % 4])
  }

  lemma NewRegisterIsTheSum(a: bv32, b: bv32, mix: bv32, x: bv32, t: bv32, s: nat)
    requires s < 32
    ensures NewRegister(a, b, x, t, mix, s) == Sum(a, b, mix, x, t, s)
  {
  }

  lemma NextRoles(v: Variables, i: nat, z: bv32)
    ensures var r := Roles(v, i);
            Roles(v[Target(i) := z], i + 1) == Registers(r.d, z, r.b, r.c)
  {
    var t := Target(i);
    assert Target(i + 1) == (t + 3) % 4;
    assert t == 0 || t == 1 || t == 2 || t == 3;
  }

  /** The words of a block as numbers. */
  function Numbers(w: Block): Message {
    seq(BLOCK_WORDS, j requires 0 <= j < BLOCK_WORDS => Input(w[j]))
  }

  lemma TurnIsAnOperation(i: nat, v: Variables, w: Block)
    requires i < STEPS
    ensures Turn(i, Roles(v, i), Input(w[WordIndex(i)])) == Roles(Operation(i, v, Numbers(w)), i + 1)
  {
    var r := Roles(v, i);
    var word, mix := Input(w[WordIndex(i)]), Mix(i, r.b, r.c, r.d);
    NewRegisterIsTheSum(r.a, r.b, mix, word, Constant(i), Shift(i));
    NextRoles(v, i, Sum(r.a, r.b, mix, word, Constant(i), Shift(i)));
    WordsAsListed(i);
    ShiftsAsListed(i);
    FunctionsAsDefined(i, r.b, r.c, r.d);
  }

  lemma StepIsAnOperation(i: nat, v: Variables, w: Block)
    requires i < STEPS && i != 31
    ensures Step(i, State(Roles(v, i), w)) == State(Roles(Operation(i, v, Numbers(w)), i + 1), w)
  {
    TurnIsAnOperation(i, v, w);
  }

  lemma SwappingStepIsAnOperation(v: Variables, w: Block)
    ensures var r := Roles(Operation(31, v, Numbers(w)), 32);
            Step(31, State(Roles(v, 31), w)) == State(r, Swapped(PairsOf(r), w))
  {
    TurnIsAnOperation(31, v, w);
  }

  type Views = (nat, Variables) -> State

  /** The program's state when the next operation is `i`. */
  function Seen(w: Block): Views {
    (i: nat, v: Variables) => State(Roles(v, i), w)
  }

  /** Steps that do what the operations do, seen through a view, do so in any number. */
  lemma {:induction false} Simulates(step: Steps, ops: Operations, view: Views, s: State, v: Variables,
                                     from: nat, to: nat)
    requires from <= to && Run(step, s, from) == view(from, v)
    requires forall i: nat, w: Variables :: from <= i < to ==> step(i, view(i, w)) == view(i + 1, ops(i, w))
    ensures Run(step, s, to) == view(to, Perform(ops, v, from, to))
  {
    if from == to {
    } else {
      Simulates(step, ops, view, s, v, from, to - 1);
    }
  }

  /** Away from step 31 the steps are the operations of the RFC on the block as it is. */
  lemma RunIsOperations(s: State, v: Variables, w: Block, from: nat, to: nat)
    requires from <= to <= STEPS && (to <= 31 || 32 <= from) && Run(Step, s, from) == State(Roles(v, from), w)
    ensures Run(Step, s, to) == State(Roles(Perform(On(Numbers(w)), v, from, to), to), w)
  {
    forall i: nat, u: Variables | from <= i < to
      ensures Step(i, Seen(w)(i, u)) == Seen(w)(i + 1, On(Numbers(w))(i, u))
    {
      StepIsAnOperation(i, u, w);
    }
    Simulates(Step, On(Numbers(w)), Seen(w), s, v, from, to);
  }

  /** The variables after the first two rounds. */
  function Half(v: Variables, x: Message): Variables {
    Perform(On(x), v, 0, 32)
  }

  /** Hexadecimal digit `k` of a number, the lowest being digit 0. */
  function Nibble(v: bv32, k: nat): (n: nat)
    requires k < 4
    ensures n < BLOCK_WORDS
  {
    match k
    case 0 => (v & 0xf) as nat
    case 1 => ((v >> 4) & 0xf) as nat
    case 2 => ((v >> 8) & 0xf) as nat
    case _ => ((v >> 12) & 0xf) as nat
  }

  function Exchange(x: nat, y: nat, j: nat): nat {
    if j == x then y else if j == y then x else j
  }

  /** Where the word at position `j` was before the five exchanges: A and B name the positions by their lowest
      digits, then C and D, and then A and B by their next three digits. */
  function Origin(v: Variables, j: nat): (r: nat)
    requires j < BLOCK_WORDS
    ensures r < BLOCK_WORDS
  {
    var a, b, c, d := v[0], v[1], v[2], v[3];
    var before4 := Exchange(Nibble(a, 3), Nibble(b, 3), j);
    var before3 := Exchange(Nibble(a, 2), Nibble(b, 2), before4);
    var before2 := Exchange(Nibble(a, 1), Nibble(b, 1), before3);
    var before1 := Exchange(Nibble(c, 0), Nibble(d, 0), before2);
    Exchange(Nibble(a, 0), Nibble(b, 0), before1)
  }

  /** The block as the last two rounds see it. */
  function HalfMessage(v: Variables, x: Message): Message {
    seq(BLOCK_WORDS, j requires 0 <= j < BLOCK_WORDS => x[Origin(Half(v, x), j)])
  }

  lemma SwapExchanges(w: Block, x: nat, y: nat, j: nat)
    requires x < BLOCK_WORDS && y < BLOCK_WORDS && j < BLOCK_WORDS
    ensures Swap(w, x, y)[j] == w[Exchange(x, y, j)]
  {
  }

  lemma Digit0(v: bv32)
    ensures Digit(v, 0) == Nibble(v, 0)
  {
  }

  lemma Digit1(v: bv32)
    ensures Digit(v, 1) == Nibble(v, 1)
  {
  }

  lemma Digit2(v: bv32)
    ensures Digit(v, 2) == Nibble(v, 2)
  {
  }

  lemma Digit3(v: bv32)
    ensures Digit(v, 3) == Nibble(v, 3)
  {
  }

  lemma SwappedAt(p: Pairs, w: Block, j: nat)
    requires p.Valid() && j < BLOCK_WORDS
    ensures var before4 := Exchange(p.x4, p.y4, j);
            var before3 := Exchange(p.x3, p.y3, before4);
            var before2 := Exchange(p.x2, p.y2, before3);
            var before1 := Exchange(p.x1, p.y1, before2);
            Swapped(p, w)[j] == w[Exchange(p.x0, p.y0, before1)]
  {
    var w1 := Swap(w, p.x0, p.y0);
    var w2 := Swap(w1, p.x1, p.y1);
    var w3 := Swap(w2, p.x2, p.y2);
    var w4 := Swap(w3, p.x3, p.y3);
    var before4 := Exchange(p.x4, p.y4, j);
    var before3 := Exchange(p.x3, p.y3, before4);
    var before2 := Exchange(p.x2, p.y2, before3);
    SwapExchanges(w4, p.x4, p.y4, j);
    SwapExchanges(w3, p.x3, p.y3, before4);
    SwapExchanges(w2, p.x2, p.y2, before3);
    SwapExchanges(w1, p.x1, p.y1, before2);
    SwapExchanges(w, p.x0, p.y0, Exchange(p.x1, p.y1, before2));
  }

  /** The program's swaps are the exchanges. */
  lemma SwappedFromOrigin(v: Variables, w: Block, j: nat)
    requires j < BLOCK_WORDS
    ensures Swapped(PairsOf(Registers(v[0], v[1], v[2], v[3])), w)[j] == w[Origin(v, j)]
  {
    var p := PairsOf(Registers(v[0], v[1], v[2], v[3]));
    SwappedAt(p, w, j);
    Digit0(v[0]);
    Digit0(v[1]);
    Digit0(v[2]);
    Digit0(v[3]);
    Digit1(v[0]);
    Digit1(v[1]);
    Digit2(v[0]);
    Digit2(v[1]);
    Digit3(v[0]);
    Digit3(v[1]);
  }

  /** The block of the program after the swaps. */
  function HalfBlock(v: Variables, w: Block): Block {
    Swapped(PairsOf(Roles(Half(v, Numbers(w)), 32)), w)
  }

  lemma HalfBlockIsTheMessage(v: Variables, w: Block)
    ensures Numbers(HalfBlock(v, w)) == HalfMessage(v, Numbers(w))
  {
    var h := Half(v, Numbers(w));
    RolesAtHalf(h);
    forall j: nat | j < BLOCK_WORDS
      ensures Numbers(HalfBlock(v, w))[j] == HalfMessage(v, Numbers(w))[j]
    {
      SwappedFromOrigin(h, w, j);
    }
  }

  lemma RolesAtHalf(v: Variables)
    ensures Roles(v, 32) == Registers(v[0], v[1], v[2], v[3])
  {
  }

  lemma RunToHalf(v: Variables, w: Block)
    ensures Run(Step, State(Roles(v, 0), w), 32) == State(Roles(Half(v, Numbers(w)), 32), HalfBlock(v, w))
  {
    var s, x := State(Roles(v, 0), w), Numbers(w);
    var u := Perform(On(x), v, 0, 31);
    RunIsOperations(s, v, w, 0, 31);
    SwappingStepIsAnOperation(u, w);
    assert Run(Step, s, 32) == Step(31, State(Roles(u, 31), w));
    assert Half(v, x) == Operation(31, u, x);
  }

  /** The 64 steps are those of section 3.4 of RFC 1321, two rounds on the block and two rounds on the
      block with its words exchanged. */
  lemma RunIsMd5WithSwaps(v: Variables, w: Block)
    ensures var x := Numbers(w);
            Run(Step, State(Roles(v, 0), w), STEPS) ==
              State(Roles(Perform(On(HalfMessage(v, x)), Half(v, x), 32, 64), 64), HalfBlock(v, w))
  {
    RunToHalf(v, w);
    RunIsOperations(State(Roles(v, 0), w), Half(v, Numbers(w)), HalfBlock(v, w), 32, 64);
    HalfBlockIsTheMessage(v, w);
  }

  /** Before and after the loop the registers are A, B, C and D in this order. */
  lemma RolesAtTheEnds(v: Variables)
    ensures Roles(v, 0) == Roles(v, STEPS) == Registers(v[0], v[1], v[2], v[3])
  {
  }

  function VariablesOf(k: Registers): Variables {
    [k.a, k.b, k.c, k.d]
  }

  /** A, B, C and D after rounds 1 and 2 on the block and rounds 3 and 4 on the block of exchanged words. */
  function Md5WithSwaps(v: Variables, x: Message): Variables {
    Perform(On(HalfMessage(v, x)), Half(v, x), 32, 64)
  }

  /** The registers that are added to the key in the end are the four variables of the RFC. */
  lemma RunEndsInTheVariables(k: Registers, w: Block)
    ensures var v := Md5WithSwaps(VariablesOf(k), Numbers(w));
            Run(Step, State(k, w), STEPS).regs == Registers(v[0], v[1], v[2], v[3])
  {
    var v := VariablesOf(k);
    RolesAtTheEnds(v);
    RunIsMd5WithSwaps(v, w);
    RolesAtTheEnds(Md5WithSwaps(v, Numbers(w)));
  }

  // ---- By the bytes ----

  /** The number that four bytes make, the highest first. */
  function BigEndian(b0: Byte, b1: Byte, b2: Byte, b3: Byte): bv32 {
    0x100_0000 * (b0 as bv32) + 0x1_0000 * (b1 as bv32) + 0x100 * (b2 as bv32) + (b3 as bv32)
  }

  /** How four bytes make a number. */
  type Reading = (Byte, Byte, Byte, Byte) -> bv32

  /** The first `n` groups of four bytes as numbers. */
  function NumbersIn(read: Reading, buf: seq<Byte>, n: nat): seq<bv32>
    requires |buf| >= 4 * n
  {
    seq(n, j requires 0 <= j < n => read(buf[4 * j], buf[4 * j + 1], buf[4 * j + 2], buf[4 * j + 3]))
  }

  /** The words `X[j]` of the RFC, but with the highest byte first. */
  function MessageOf(block: seq<Byte>): Message
    requires |block| >= 64
  {
    NumbersIn(BigEndian, block, 16)
  }

  /** Four numbers, the lowest byte first. */
  function FourOf(buf: seq<Byte>): Variables
    requires |buf| >= 16
  {
    NumbersIn(LittleEndian, buf, 4)
  }

  type Addition = (bv32, bv32) -> bv32

  function AddedUp(add: Addition, v: Variables, w: Variables): Variables {
    [add(v[0], w[0]), add(v[1], w[1]), add(v[2], w[2]), add(v[3], w[3])]
  }

  /** Modulo 2^32 */
  function WrappingAdd(a: bv32, b: bv32): bv32 {
    a + b
  }

  /** The sums of `Digest`. */
  lemma AddedUpIsTheSum(v: Variables, w: Variables)
    ensures AddedUp(WrappingAdd, v, w) == [v[0] + w[0], v[1] + w[1], v[2] + w[2], v[3] + w[3]]
  {
  }

  lemma SameNumbers(read: Reading, read': Reading, buf: seq<Byte>, n: nat)
    requires |buf| >= 4 * n && forall b0, b1, b2, b3 :: read(b0, b1, b2, b3) == read'(b0, b1, b2, b3)
    ensures NumbersIn(read, buf, n) == NumbersIn(read', buf, n)
  {
    forall j | 0 <= j < n ensures NumbersIn(read, buf, n)[j] == NumbersIn(read', buf, n)[j] {
      var b0, b1, b2, b3 := buf[4 * j], buf[4 * j + 1], buf[4 * j + 2], buf[4 * j + 3];
      assert read(b0, b1, b2, b3) == read'(b0, b1, b2, b3);
    }
  }

  lemma BytesApartDownwards(b0: Byte, b1: Byte, b2: Byte, b3: Byte)
    ensures ((b0 as bv32) << 24) & ((b1 as bv32) << 16) == 0
    ensures (((b0 as bv32) << 24) | ((b1 as bv32) << 16)) & ((b2 as bv32) << 8) == 0
    ensures (((b0 as bv32) << 24) | ((b1 as bv32) << 16) | ((b2 as bv32) << 8)) & (b3 as bv32) == 0
  {
  }

  lemma BytesDownwards(b0: Byte, b1: Byte, b2: Byte, b3: Byte)
    ensures ((b0 as bv32) << 24) | ((b1 as bv32) << 16) | ((b2 as bv32) << 8) | (b3 as bv32) ==
            0x100_0000 * (b0 as bv32) + 0x1_0000 * (b1 as bv32) + 0x100 * (b2 as bv32) + (b3 as bv32)
  {
    BytesApartDownwards(b0, b1, b2, b3);
    ShiftsAreProducts(b0);
    ShiftsAreProducts(b1);
    ShiftsAreProducts(b2);
    OrIsSum((b0 as bv32) << 24, (b1 as bv32) << 16);
    OrIsSum(((b0 as bv32) << 24) | ((b1 as bv32) << 16), (b2 as bv32) << 8);
    OrIsSum(((b0 as bv32) << 24) | ((b1 as bv32) << 16) | ((b2 as bv32) << 8), b3 as bv32);
  }

  lemma InputIsBigEndian(b0: Byte, b1: Byte, b2: Byte, b3: Byte)
    ensures Input(Word(b0, b1, b2, b3)) == BigEndian(b0, b1, b2, b3)
  {
    BytesDownwards(b0, b1, b2, b3);
  }

  /** `Input` of a word, by its bytes. */
  function InputBytes(b0: Byte, b1: Byte, b2: Byte, b3: Byte): bv32 {
    Input(Word(b0, b1, b2, b3))
  }

  function ValueBytes(b0: Byte, b1: Byte, b2: Byte, b3: Byte): bv32 {
    Value(Word(b0, b1, b2, b3))
  }

  lemma NumbersAreInputs(block: seq<Byte>)
    requires |block| >= 64
    ensures Numbers(WordsOf(block)) == NumbersIn(InputBytes, block, 16)
  {
  }

  lemma NumbersByTheBytes(block: seq<Byte>)
    requires |block| >= 64
    ensures Numbers(WordsOf(block)) == MessageOf(block)
  {
    NumbersAreInputs(block);
    forall b0, b1, b2, b3 ensures InputBytes(b0, b1, b2, b3) == BigEndian(b0, b1, b2, b3) {
      InputIsBigEndian(b0, b1, b2, b3);
    }
    SameNumbers(InputBytes, BigEndian, block, 16);
  }

  lemma FourAreValues(buf: seq<Byte>)
    requires |buf| >= 16
    ensures NumbersIn(ValueBytes, buf, 4) == [ReadU32(buf, 0), ReadU32(buf, 1), ReadU32(buf, 2), ReadU32(buf, 3)]
  {
  }

  lemma FourByTheBytes(buf: seq<Byte>)
    requires |buf| >= 16
    ensures FourOf(buf) == [ReadU32(buf, 0), ReadU32(buf, 1), ReadU32(buf, 2), ReadU32(buf, 3)]
  {
    FourAreValues(buf);
    forall b0, b1, b2, b3 ensures ValueBytes(b0, b1, b2, b3) == LittleEndian(b0, b1, b2, b3) {
      ValueIsLittleEndian(b0, b1, b2, b3);
    }
    SameNumbers(ValueBytes, LittleEndian, buf, 4);
  }

  lemma KeyByTheBytes(key: seq<Byte>)
    requires |key| >= 16
    ensures FourOf(key) == VariablesOf(RegistersOf(key))
  {
    FourByTheBytes(key);
  }

  lemma FinalVariables(block: seq<Byte>, key: seq<Byte>, r: Registers)
    requires |block| >= 64 && |key| >= 16
    requires r == Run(Step, State(RegistersOf(key), WordsOf(block)), STEPS).regs
    ensures VariablesOf(r) == Md5WithSwaps(FourOf(key), MessageOf(block))
  {
    RunEndsInTheVariables(RegistersOf(key), WordsOf(block));
    NumbersByTheBytes(block);
    KeyByTheBytes(key);
    ListedVariables(r, Md5WithSwaps(FourOf(key), MessageOf(block)));
  }

  lemma ListedVariables(r: Registers, v: Variables)
    requires r == Registers(v[0], v[1], v[2], v[3])
    ensures VariablesOf(r) == v
  {
  }

  // ---- In place ----

  /** The block as sixteen words. */
  function WordsOf(b: seq<Byte>): Block
    requires |b| >= 4 * BLOCK_WORDS
  {
    seq(BLOCK_WORDS, j requires 0 <= j < BLOCK_WORDS => RdLe(b, j))
  }

  function RegistersOf(key: seq<Byte>): Registers
    requires |key| >= 16
  {
    Registers(ReadU32(key, 0), ReadU32(key, 1), ReadU32(key, 2), ReadU32(key, 3))
  }

  method SwapInPlace(block: array<Byte>, x: nat, y: nat)
    requires block.Length == 4 * BLOCK_WORDS && x < BLOCK_WORDS && y < BLOCK_WORDS
    modifies block
    ensures WordsOf(block[..]) == Swap(WordsOf(old(block[..])), x, y)
  {
    var vx := RdLe(block[..], x);
    var vy := RdLe(block[..], y);
    WrLe(block, x, vy);
    WrLe(block, y, vx);
  }

  method SwapAll(block: array<Byte>, a: bv32, b: bv32, c: bv32, d: bv32)
    requires block.Length == 4 * BLOCK_WORDS
    modifies block
    ensures WordsOf(block[..]) == Swapped(PairsOf(Registers(a, b, c, d)), WordsOf(old(block[..])))
  {
    SwapInPlace(block, Digit(a, 0), Digit(b, 0));
    SwapInPlace(block, Digit(c, 0), Digit(d, 0));
    SwapInPlace(block, Digit(a, 1), Digit(b, 1));
    SwapInPlace(block, Digit(a, 2), Digit(b, 2));
    SwapInPlace(block, Digit(a, 3), Digit(b, 3));
  }

  method StepInPlace(i: nat, r: Registers, block: array<Byte>) returns (next: Registers)
    requires block.Length == 4 * BLOCK_WORDS
    modifies block
    ensures State(next, WordsOf(block[..])) == Step(i, State(r, WordsOf(old(block[..]))))
  {
    var a, b, c, d := r.a, r.b, r.c, r.d;
    var z := NewRegister(a, b, Input(RdLe(block[..], WordIndex(i))), Constant(i), Mix(i, b, c, d), Shift(i));
    var tmp := d;
    d := c;
    c := b;
    b := z;
    a := tmp;
    if i == 31 {
      SwapAll(block, a, b, c, d);
    }
    next := Registers(a, b, c, d);
  }

  method RunInPlace(k: Registers, block: array<Byte>) returns (r: Registers)
    requires block.Length == 4 * BLOCK_WORDS
    modifies block
    ensures State(r, WordsOf(block[..])) == Run(Step, State(k, WordsOf(old(block[..]))), STEPS)
  {
    ghost var s := State(k, WordsOf(block[..]));
    r := k;
    for i := 0 to STEPS
      invariant State(r, WordsOf(block[..])) == Run(Step, s, i)
    {
      r := StepInPlace(i, r, block);
    }
  }

  /** The first four words become the sums of two sets of registers. */
  method WriteSums(add: Addition, keyOut: array<Byte>, k: Registers, r: Registers)
    requires keyOut.Length >= 16
    modifies keyOut
    ensures FourOf(keyOut[..]) == AddedUp(add, VariablesOf(k), VariablesOf(r))
    ensures forall j :: 16 <= j < keyOut.Length ==> keyOut[j] == old(keyOut[j])
  {
    WriteFour(keyOut, add(k.a, r.a), add(k.b, r.b), add(k.c, r.c), add(k.d, r.d));
  }

  method WriteFour(buf: array<Byte>, v0: bv32, v1: bv32, v2: bv32, v3: bv32)
    requires buf.Length >= 16
    modifies buf
    ensures FourOf(buf[..]) == [v0, v1, v2, v3]
    ensures forall j :: 16 <= j < buf.Length ==> buf[j] == old(buf[j])
  {
    WriteWords(buf, v0, v1, v2, v3);
    FourByTheBytes(buf[..]);
  }

  method WriteWords(buf: array<Byte>, v0: bv32, v1: bv32, v2: bv32, v3: bv32)
    requires buf.Length >= 16
    modifies buf
    ensures ReadU32(buf[..], 0) == v0 && ReadU32(buf[..], 1) == v1
    ensures ReadU32(buf[..], 2) == v2 && ReadU32(buf[..], 3) == v3
    ensures forall j :: 16 <= j < buf.Length ==> buf[j] == old(buf[j])
  {
    WriteU32(buf, 0, v0);
    WriteU32(buf, 1, v1);
    WriteU32(buf, 2, v2);
    WriteU32(buf, 3, v3);
  }

  /** Runs the steps on a copy of the block and adds the key to the final registers. By the bytes: the result
      is the key plus the variables of the RFC, in little-endian order, and the block is read in big-endian
      order. */
  method Digest(originalBlock: seq<Byte>, keyIn: seq<Byte>, keyOut: array<Byte>)
    requires |originalBlock| >= 4 * BLOCK_WORDS && |keyIn| >= 16 && keyOut.Length >= 16
    modifies keyOut
    ensures var k := FourOf(keyIn);
            FourOf(keyOut[..]) == AddedUp(WrappingAdd, k, Md5WithSwaps(k, MessageOf(originalBlock)))
    ensures forall j :: 16 <= j < keyOut.Length ==> keyOut[j] == old(keyOut[j])
  {
    var block := new Byte[4 * BLOCK_WORDS](j requires 0 <= j < 4 * BLOCK_WORDS => originalBlock[j]);
    ghost var w := WordsOf(originalBlock);
    assert WordsOf(block[..]) == w;
    var k := RegistersOf(keyIn);
    var r := RunInPlace(k, block);
    FinalVariables(originalBlock, keyIn, r);
    WriteSums(WrappingAdd, keyOut, k, r);
    KeyByTheBytes(keyIn);
  }
}
