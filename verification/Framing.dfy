/** The length-prefixed packet framing shared by every FCast component: a packet is a
    four-byte little-endian length followed by that many body bytes. `Parse` is the reference
    parser over a whole byte stream; everything that reassembles packets is compared with it. */
module Framing {
  import opened Sequences

  newtype byte = i: int | 0 <= i < 256

  const LEN_SIZE := 4
  const U32_MODULUS := 0x1_0000_0000

  function FromLe(s: seq<byte>): nat {
    if s == [] then 0 else s[0] as int + 0x100 * FromLe(s[1..])
  }

  function ToLe(n: nat, size: nat): (s: seq<byte>)
    ensures |s| == size
    decreases size
  {
    if size == 0 then [] else [(n % 0x100) as byte] + ToLe(n / 0x100, size - 1)
  }

  function Pow256(size: nat): (p: nat)
    ensures p > 0
  {
    if size == 0 then 1 else 0x100 * Pow256(size - 1)
  }

  lemma {:induction false} LeRoundTrip(n: nat, size: nat)
    requires n < Pow256(size)
    ensures FromLe(ToLe(n, size)) == n
    decreases size
  {
    if size == 0 {
    } else {
      LeRoundTrip(n / 0x100, size - 1);
      assert ToLe(n, size)[1..] == ToLe(n / 0x100, size - 1);
    }
  }

  lemma LowByte(high: nat, low: byte)
    ensures var n := low as int + 0x100 * high; n % 0x100 == low as int && n / 0x100 == high
  {
  }

  lemma {:induction false} LeInverse(s: seq<byte>)
    ensures FromLe(s) < Pow256(|s|)
    ensures ToLe(FromLe(s), |s|) == s
  {
    if s == [] {
    } else {
      LeInverse(s[1..]);
      LowByte(FromLe(s[1..]), s[0]);
      assert s == [s[0]] + s[1..];
    }
  }

  lemma U32Pow()
    ensures Pow256(LEN_SIZE) == U32_MODULUS
  {
    assert Pow256(1) == 0x100 && Pow256(2) == 0x1_0000 && Pow256(3) == 0x100_0000;
  }

  function FromLe32(s: seq<byte>): nat
    requires |s| == LEN_SIZE
  {
    FromLe(s)
  }

  /** `u32::to_le_bytes`. A `usize` length is cast with `as u32`: only its four low bytes are kept. */
  function ToLe32(n: nat): (s: seq<byte>)
    ensures |s| == LEN_SIZE
  {
    ToLe(n, LEN_SIZE)
  }

  function Frame(body: seq<byte>): seq<byte> {
    ToLe32(|body|) + body
  }

  function Frames(bodies: seq<seq<byte>>): seq<byte> {
    if bodies == [] then [] else Frame(bodies[0]) + Frames(bodies[1..])
  }

  lemma FramesCons(body: seq<byte>, bodies: seq<seq<byte>>)
    ensures Frames([body] + bodies) == Frame(body) + Frames(bodies)
  {
    assert ([body] + bodies)[1..] == bodies;
  }

  /** Every body fits the limit of a reader and the width of the length field. */
  ghost predicate Acceptable(bodies: seq<seq<byte>>, max: nat) {
    forall i :: 0 <= i < |bodies| ==> |bodies[i]| <= max && |bodies[i]| < U32_MODULUS
  }

  lemma {:induction false} FramesAppend(xs: seq<seq<byte>>, ys: seq<seq<byte>>)
    ensures Frames(xs + ys) == Frames(xs) + Frames(ys)
  {
    if xs == [] {
      assert xs + ys == ys;
    } else {
      assert (xs + ys)[1..] == xs[1..] + ys;
      FramesAppend(xs[1..], ys);
    }
  }

  datatype ReadResult = NeedData | Read(packet: seq<byte>) | PacketTooLarge(length: nat)

  /** What one look at the front of a byte stream yields. */
  function NextPacket(s: seq<byte>, max: nat): ReadResult {
    if |s| < LEN_SIZE then NeedData
    else
      var n := FromLe32(s[..LEN_SIZE]);
      if n > max then PacketTooLarge(n)
      else if |s| - LEN_SIZE < n then NeedData
      else Read(s[LEN_SIZE..LEN_SIZE + n])
  }

  /** The length field by its four bytes, the lowest first. */
  function AnnouncedLength(s: seq<byte>): nat
    requires |s| >= 4
  {
    s[0] as int + 0x100 * s[1] as int + 0x1_0000 * s[2] as int + 0x100_0000 * s[3] as int
  }

  /** `r` is the answer to the bytes `s`: the length is checked against the limit as soon as its four bytes
      are there, and a packet is read when all bytes that it announces are. */
  predicate Answers(s: seq<byte>, max: nat, r: ReadResult) {
    match r
    case NeedData => |s| < 4 || (AnnouncedLength(s) <= max && |s| < 4 + AnnouncedLength(s))
    case PacketTooLarge(length) => |s| >= 4 && length == AnnouncedLength(s) > max
    case Read(packet) =>
      |s| >= 4 && AnnouncedLength(s) <= max && |s| >= 4 + AnnouncedLength(s) && packet == s[4..4 + AnnouncedLength(s)]
  }

  lemma LeOfFour(b0: byte, b1: byte, b2: byte, b3: byte)
    ensures FromLe([b0, b1, b2, b3]) ==
            b0 as int + 0x100 * b1 as int + 0x1_0000 * b2 as int + 0x100_0000 * b3 as int
  {
    LeCons(b3, []);
    LeCons(b2, [b3]);
    LeCons(b1, [b2, b3]);
    LeCons(b0, [b1, b2, b3]);
  }

  lemma LeCons(b: byte, s: seq<byte>)
    ensures FromLe([b] + s) == b as int + 0x100 * FromLe(s)
  {
    assert ([b] + s)[1..] == s;
  }

  lemma LengthIsLittleEndian(s: seq<byte>)
    requires |s| >= 4
    ensures FromLe32(s[..4]) == AnnouncedLength(s)
  {
    LeOfFour(s[0], s[1], s[2], s[3]);
    assert s[..4] == [s[0], s[1], s[2], s[3]];
  }

  /** There is exactly one answer to any bytes. */
  lemma AnswerIsByTheBytes(s: seq<byte>, max: nat, r: ReadResult)
    ensures Answers(s, max, r) <==> r == NextPacket(s, max)
  {
    if |s| >= 4 {
      LengthIsLittleEndian(s);
    }
  }

  /** The bytes behind a packet that was read off the front. */
  function Rest(s: seq<byte>, packet: seq<byte>): seq<byte>
    requires LEN_SIZE + |packet| <= |s|
  {
    s[LEN_SIZE + |packet|..]
  }

  /** A packet is found only where the stream starts with the frame of an acceptable body. */
  lemma ReadIsFramed(s: seq<byte>, max: nat, body: seq<byte>)
    requires NextPacket(s, max) == Read(body)
    ensures |body| <= max && |body| < U32_MODULUS
    ensures s == Frame(body) + Rest(s, body)
  {
    LeInverse(s[..LEN_SIZE]);
    U32Pow();
    assert s == s[..LEN_SIZE] + body + Rest(s, body);
  }

  /** ... and always found there. */
  lemma FramedIsRead(body: seq<byte>, tail: seq<byte>, max: nat)
    requires |body| <= max && |body| < U32_MODULUS
    ensures NextPacket(Frame(body) + tail, max) == Read(body)
    ensures Rest(Frame(body) + tail, body) == tail
  {
    var prefix := ToLe32(|body|);
    var s := Frame(body) + tail;
    assert s == prefix + (body + tail);
    assert s[..LEN_SIZE] == prefix;
    assert FromLe32(prefix) == |body| by { U32Pow(); LeRoundTrip(|body|, LEN_SIZE); }
    assert s[LEN_SIZE..LEN_SIZE + |body|] == body;
  }

  /** More bytes never change a decision already taken. */
  lemma DecisionIsStable(s: seq<byte>, more: seq<byte>, max: nat)
    requires NextPacket(s, max) != NeedData
    ensures NextPacket(s + more, max) == NextPacket(s, max)
    ensures NextPacket(s, max).Read? ==>
              LEN_SIZE + |NextPacket(s, max).packet| <= |s| &&
              Rest(s + more, NextPacket(s, max).packet) == Rest(s, NextPacket(s, max).packet) + more
  {
    assert (s + more)[..LEN_SIZE] == s[..LEN_SIZE];
  }

  /** A stream that needs data is shorter than the largest frame. */
  lemma NeedDataIsShort(s: seq<byte>, max: nat)
    requires NextPacket(s, max) == NeedData
    ensures |s| < LEN_SIZE + max
  {
  }

  datatype Parsed = Parsed(packets: seq<seq<byte>>, rest: seq<byte>)

  /** The reference parser: all complete packets, and what is left when it gets stuck. */
  function Parse(s: seq<byte>, max: nat): Parsed
    decreases |s|
  {
    match NextPacket(s, max)
    case Read(p) =>
      var tail := Parse(Rest(s, p), max);
      Parsed([p] + tail.packets, tail.rest)
    case _ => Parsed([], s)
  }

  lemma {:induction false} ParseConservesBytes(s: seq<byte>, max: nat)
    ensures s == Frames(Parse(s, max).packets) + Parse(s, max).rest
    decreases |s|
  {
    match NextPacket(s, max)
    case Read(p) =>
      ReadIsFramed(s, max, p);
      ParseConservesBytes(Rest(s, p), max);
      var tail := Parse(Rest(s, p), max);
      FramesCons(p, tail.packets);
      AppendAssociates(Frame(p), Frames(tail.packets), tail.rest);
    case _ =>
  }

  /** The parser returns only acceptable packets and gets stuck only where no packet is complete. */
  lemma {:induction false} ParseIsMaximal(s: seq<byte>, max: nat)
    ensures !NextPacket(Parse(s, max).rest, max).Read?
    ensures Acceptable(Parse(s, max).packets, max)
    decreases |s|
  {
    match NextPacket(s, max)
    case Read(p) =>
      ReadIsFramed(s, max, p);
      ParseIsMaximal(Rest(s, p), max);
    case _ =>
  }

  /** Parsing can stop anywhere and resume on the leftover plus the newly arrived bytes. */
  lemma {:induction false} ParseResumes(s: seq<byte>, more: seq<byte>, max: nat)
    ensures var before := Parse(s, max);
            var after := Parse(before.rest + more, max);
            Parse(s + more, max) == Parsed(before.packets + after.packets, after.rest)
    decreases |s|
  {
    match NextPacket(s, max)
    case Read(p) =>
      DecisionIsStable(s, more, max);
      ParseResumes(Rest(s, p), more, max);
      var before := Parse(Rest(s, p), max);
      var after := Parse(before.rest + more, max);
      assert [p] + (before.packets + after.packets) == ([p] + before.packets) + after.packets;
    case _ =>
  }

  lemma ParseOfFrame(body: seq<byte>, tail: seq<byte>, max: nat)
    requires |body| <= max && |body| < U32_MODULUS
    ensures Parse(Frame(body) + tail, max) ==
            Parsed([body] + Parse(tail, max).packets, Parse(tail, max).rest)
  {
    FramedIsRead(body, tail, max);
  }

  /** Framing any list of acceptable bodies and parsing it back gives the list. */
  lemma {:induction false} FramesParseBack(bodies: seq<seq<byte>>, tail: seq<byte>, max: nat)
    requires Acceptable(bodies, max)
    ensures Parse(Frames(bodies) + tail, max) ==
            Parsed(bodies + Parse(tail, max).packets, Parse(tail, max).rest)
  {
    if bodies == [] {
      assert Frames(bodies) + tail == tail;
    } else {
      var b, later := bodies[0], bodies[1..];
      var s := Frames(later) + tail;
      var whole, more := Parse(Frames(bodies) + tail, max), Parse(tail, max);
      assert whole == Parsed([b] + Parse(s, max).packets, Parse(s, max).rest) by {
        AppendAssociates(Frame(b), Frames(later), tail);
        ParseOfFrame(b, s, max);
      }
      assert Parse(s, max) == Parsed(later + more.packets, more.rest) by {
        FramesParseBack(later, tail, max);
      }
      HeadAppend(bodies, more.packets);
    }
  }
}
