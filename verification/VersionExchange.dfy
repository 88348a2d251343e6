/** The plaintext Version exchange that precedes TLS: blocking packet reads on one connection, and
    the two-party protocol over two FIFO byte channels of bounded capacity. */
module VersionExchange {
  import opened Sequences
  import opened Framing
  import opened Wrappers

  const MAX_PACKET_SIZE := 512 * 1024
  const OPCODE_VERSION: byte := 11
  const PROTOCOL_VERSION := 4

  datatype Error = PacketTooLarge | ClosedMidPacket | EmptyPacket | SizeExceedsMaximum

  datatype Result<T> = Ok(value: T) | Err(error: Error)

  datatype Packet = Packet(opcode: byte, body: seq<byte>)

  function EncodePacket(opcode: byte, body: seq<byte>): Result<seq<byte>> {
    var size := 1 + |body|;
    if size > MAX_PACKET_SIZE then Err(Error.PacketTooLarge) else Ok(ToLe32(size) + [opcode] + body)
  }

  /** A blocking socket whose peer has sent `incoming` and then closed. */
  class ClosingSocket {
    var incoming: seq<byte>

    constructor (incoming: seq<byte>)
      ensures this.incoming == incoming
    {
      this.incoming := incoming;
    }

    /** `recv(n)`: some bytes, at most `n`; no bytes only at the end of the stream. The network
        decides on the fragment, here through `wish`. */
    method Recv(n: nat, wish: nat) returns (chunk: seq<byte>)
      requires n > 0
      modifies this
      ensures |chunk| <= n && old(incoming) == chunk + incoming
      ensures chunk == [] <==> old(incoming) == []
    {
      var most := if n < |incoming| then n else |incoming|;
      var take := if wish == 0 || wish > most then most else wish;
      chunk := incoming[..take];
      incoming := incoming[take..];
    }
  }

  /** Reads exactly `n` bytes whatever the fragmentation (`wishes`), or reports that the connection
      closed, which happens exactly when fewer are left. */
  method ReadExact(sock: ClosingSocket, n: nat, wishes: nat -> nat) returns (r: Result<seq<byte>>)
    modifies sock
    ensures n <= |old(sock.incoming)| ==>
              r == Ok(old(sock.incoming)[..n]) && sock.incoming == old(sock.incoming)[n..]
    ensures n > |old(sock.incoming)| ==> r == Err(ClosedMidPacket) && sock.incoming == []
  {
    var buf: seq<byte> := [];
    while |buf| < n
      invariant |buf| <= n && buf + sock.incoming == old(sock.incoming)
      decreases n - |buf|
    {
      var chunk := sock.Recv(n - |buf|, wishes(|buf|));
      if chunk == [] {
        return Err(ClosedMidPacket);
      }
      AppendAssociates(buf, chunk, sock.incoming);
      buf := buf + chunk;
    }
    r := Ok(buf);
  }

  /** What `read_packet` makes of a stream that ends after `s`. */
  function PacketOf(s: seq<byte>): Result<Packet> {
    match NextPacket(s, MAX_PACKET_SIZE)
    case NeedData => Err(ClosedMidPacket)
    case PacketTooLarge(_) => Err(SizeExceedsMaximum)
    case Read(p) => if p == [] then Err(EmptyPacket) else Ok(Packet(p[0], p[1..]))
  }

  method ReadPacket(sock: ClosingSocket, wishes: nat -> nat) returns (r: Result<Packet>)
    modifies sock
    ensures r == PacketOf(old(sock.incoming))
    ensures r.Ok? ==>
              exists bytes :: EncodePacket(r.value.opcode, r.value.body) == Ok(bytes) &&
                              old(sock.incoming) == bytes + sock.incoming
  {
    ghost var s := sock.incoming;
    var header := ReadExact(sock, LEN_SIZE, wishes);
    if header.Err? {
      return Err(header.error);
    }
    var size := FromLe32(header.value);
    if size < 1 {
      return Err(EmptyPacket);
    }
    if size > MAX_PACKET_SIZE {
      return Err(SizeExceedsMaximum);
    }
    var payload := ReadExact(sock, size, wishes);
    if payload.Err? {
      return Err(payload.error);
    }
    r := Ok(Packet(payload.value[0], payload.value[1..]));
    LeInverse(header.value);
    assert payload.value == s[LEN_SIZE..LEN_SIZE + size];
    assert payload.value == [payload.value[0]] + payload.value[1..];
    assert s[..LEN_SIZE + size] == header.value + payload.value;
    AppendAssociates(header.value, [payload.value[0]], payload.value[1..]);
    assert EncodePacket(r.value.opcode, r.value.body) == Ok(s[..LEN_SIZE + size]);
  }

  // ---- The two-party protocol ----

  /** Where one side is inside `_exchange_version`: in `sendall`, in the two `_read_exact` loops of
      `read_packet`, or finished. */
  datatype Phase =
    | Sending
    | ReadingSize(buf: seq<byte>)
    | ReadingPayload(size: nat, buf: seq<byte>)
    | Done
    | Failed

  /** One direction of the connection. `packet` is the sender's Version packet, `unsent` what its
      `sendall` has not handed over yet, `channel` the bytes in flight, `consumed` what the other
      side has read during the exchange and `tls` what the sender's TLS layer wrote afterwards. */
  datatype Flow = Flow(packet: seq<byte>, unsent: seq<byte>, channel: seq<byte>, consumed: seq<byte>,
                       tls: seq<byte>, capacity: nat)

  datatype System = System(phaseA: Phase, phaseB: Phase, ab: Flow, ba: Flow)

  datatype Side = A | B

  datatype Action = Send(side: Side, n: nat) | Recv(side: Side, n: nat) | TlsSend(side: Side, data: seq<byte>)

  /** Reads the version number out of a packet body; JSON itself is not modelled. */
  type VersionParser = seq<byte> -> Option<int>

  predicate Accepts(payload: seq<byte>, parse: VersionParser) {
    payload != [] && payload[0] == OPCODE_VERSION && parse(payload[1..]) == Some(PROTOCOL_VERSION)
  }

  function Missing(phase: Phase): nat {
    match phase
    case ReadingSize(buf) => if |buf| < LEN_SIZE then LEN_SIZE - |buf| else 0
    case ReadingPayload(size, buf) => if |buf| < size then size - |buf| else 0
    case _ => 0
  }

  predicate CanSend(out: Flow, phase: Phase, n: nat) {
    phase.Sending? && 0 < n <= |out.unsent| && |out.channel| + n <= out.capacity
  }

  predicate CanRecv(inp: Flow, phase: Phase, n: nat) {
    0 < n <= Missing(phase) && n <= |inp.channel|
  }

  predicate CanTlsSend(out: Flow, phase: Phase, data: seq<byte>) {
    phase.Done? && data != [] && |out.channel| + |data| <= out.capacity
  }

  function Sent(out: Flow, n: nat): Flow
    requires n <= |out.unsent|
  {
    out.(channel := out.channel + out.unsent[..n], unsent := out.unsent[n..])
  }

  function Received(inp: Flow, n: nat): Flow
    requires n <= |inp.channel|
  {
    inp.(consumed := inp.consumed + inp.channel[..n], channel := inp.channel[n..])
  }

  function AfterSend(out: Flow): Phase {
    if out.unsent == [] then ReadingSize([]) else Sending
  }

  function AfterRecv(phase: Phase, chunk: seq<byte>, parse: VersionParser): Phase {
    match phase
    case ReadingSize(buf) =>
      var buf := buf + chunk;
      if |buf| != LEN_SIZE then ReadingSize(buf)
      else
        var size := FromLe32(buf);
        if size < 1 || size > MAX_PACKET_SIZE then Failed else ReadingPayload(size, [])
    case ReadingPayload(size, buf) =>
      var buf := buf + chunk;
      if |buf| < size then ReadingPayload(size, buf)
      else if Accepts(buf, parse) then Done else Failed
    case _ => phase
  }

  predicate Enabled(s: System, a: Action) {
    match a
    case Send(A, n) => CanSend(s.ab, s.phaseA, n)
    case Send(B, n) => CanSend(s.ba, s.phaseB, n)
    case Recv(A, n) => CanRecv(s.ba, s.phaseA, n)
    case Recv(B, n) => CanRecv(s.ab, s.phaseB, n)
    case TlsSend(A, data) => CanTlsSend(s.ab, s.phaseA, data)
    case TlsSend(B, data) => CanTlsSend(s.ba, s.phaseB, data)
  }

  function Apply(s: System, a: Action, parse: VersionParser): System
    requires Enabled(s, a)
  {
    match a
    case Send(A, n) => s.(ab := Sent(s.ab, n), phaseA := AfterSend(Sent(s.ab, n)))
    case Send(B, n) => s.(ba := Sent(s.ba, n), phaseB := AfterSend(Sent(s.ba, n)))
    case Recv(A, n) => s.(ba := Received(s.ba, n), phaseA := AfterRecv(s.phaseA, s.ba.channel[..n], parse))
    case Recv(B, n) => s.(ab := Received(s.ab, n), phaseB := AfterRecv(s.phaseB, s.ab.channel[..n], parse))
    case TlsSend(A, data) => s.(ab := s.ab.(channel := s.ab.channel + data, tls := s.ab.tls + data))
    case TlsSend(B, data) => s.(ba := s.ba.(channel := s.ba.channel + data, tls := s.ba.tls + data))
  }

  ghost predicate IsRun(s: System, actions: seq<Action>, parse: VersionParser)
    decreases |actions|
  {
    actions != [] ==> Enabled(s, actions[0]) && IsRun(Apply(s, actions[0], parse), actions[1..], parse)
  }

  function After(s: System, actions: seq<Action>, parse: VersionParser): System
    requires IsRun(s, actions, parse)
    decreases |actions|
  {
    if actions == [] then s else After(Apply(s, actions[0], parse), actions[1..], parse)
  }

  /** The bytes of a Version packet with the given body. */
  function VersionPacket(body: seq<byte>): (p: seq<byte>)
    requires 1 + |body| <= MAX_PACKET_SIZE
    ensures EncodePacket(OPCODE_VERSION, body) == Ok(p)
    ensures |p| == LEN_SIZE + 1 + |body|
  {
    ToLe32(1 + |body|) + [OPCODE_VERSION] + body
  }

  function Start(bodyA: seq<byte>, bodyB: seq<byte>, capacityAB: nat, capacityBA: nat): System
    requires 1 + |bodyA| <= MAX_PACKET_SIZE && 1 + |bodyB| <= MAX_PACKET_SIZE
  {
    var a, b := VersionPacket(bodyA), VersionPacket(bodyB);
    System(Sending, Sending, Flow(a, a, [], [], [], capacityAB), Flow(b, b, [], [], [], capacityBA))
  }

  // ---- The invariant ----

  ghost predicate IsVersionPacket(p: seq<byte>) {
    LEN_SIZE < |p| <= LEN_SIZE + MAX_PACKET_SIZE && FromLe32(p[..LEN_SIZE]) == |p| - LEN_SIZE
  }

  /** No byte of a direction is lost, duplicated or reordered. */
  ghost predicate FlowOk(f: Flow) {
    && IsVersionPacket(f.packet)
    && f.consumed + f.channel + f.unsent == f.packet + f.tls
    && |f.channel| <= f.capacity
    && |f.consumed| <= |f.packet|
    && |f.unsent| <= |f.packet|
  }

  ghost predicate PhaseOk(phase: Phase, out: Flow, inp: Flow, parse: VersionParser) {
    && LEN_SIZE <= |inp.packet|
    && match phase
    case Sending => out.unsent != [] && out.tls == [] && inp.consumed == []
    case ReadingSize(buf) => out.unsent == [] && out.tls == [] && inp.consumed == buf && |buf| < LEN_SIZE
    case ReadingPayload(size, buf) =>
      && out.unsent == [] && out.tls == []
      && size == |inp.packet| - LEN_SIZE && |buf| < size
      && |inp.consumed| == LEN_SIZE + |buf| && inp.consumed[LEN_SIZE..] == buf
    case Done => out.unsent == [] && inp.consumed == inp.packet && Accepts(inp.packet[LEN_SIZE..], parse)
    case Failed =>
      out.unsent == [] && out.tls == [] && inp.consumed == inp.packet && !Accepts(inp.packet[LEN_SIZE..], parse)
  }

  ghost predicate Inv(s: System, parse: VersionParser) {
    && FlowOk(s.ab) && FlowOk(s.ba)
    && PhaseOk(s.phaseA, s.ab, s.ba, parse)
    && PhaseOk(s.phaseB, s.ba, s.ab, parse)
  }

  lemma VersionPacketsAreWellFormed(body: seq<byte>)
    requires 1 + |body| <= MAX_PACKET_SIZE
    ensures IsVersionPacket(VersionPacket(body))
  {
    var p := VersionPacket(body);
    assert p[..LEN_SIZE] == ToLe32(1 + |body|);
    U32Pow();
    LeRoundTrip(1 + |body|, LEN_SIZE);
  }

  lemma StartIsOk(bodyA: seq<byte>, bodyB: seq<byte>, capacityAB: nat, capacityBA: nat, parse: VersionParser)
    requires 1 + |bodyA| <= MAX_PACKET_SIZE && 1 + |bodyB| <= MAX_PACKET_SIZE
    ensures Inv(Start(bodyA, bodyB, capacityAB, capacityBA), parse)
  {
    VersionPacketsAreWellFormed(bodyA);
    VersionPacketsAreWellFormed(bodyB);
  }

  lemma SendKeeps(out: Flow, inp: Flow, phase: Phase, n: nat, parse: VersionParser)
    requires FlowOk(out) && FlowOk(inp) && PhaseOk(phase, out, inp, parse) && CanSend(out, phase, n)
    ensures FlowOk(Sent(out, n)) && PhaseOk(AfterSend(Sent(out, n)), Sent(out, n), inp, parse)
  {
    AppendAssociates(out.channel, out.unsent[..n], out.unsent[n..]);
    AppendAssociates(out.consumed, out.channel, out.unsent);
    AppendAssociates(out.consumed, out.channel + out.unsent[..n], out.unsent[n..]);
    assert out.unsent[..n] + out.unsent[n..] == out.unsent;
  }

  lemma ReceivedFlowIsOk(f: Flow, n: nat)
    requires FlowOk(f) && n <= |f.channel| && |f.consumed| + n <= |f.packet|
    ensures FlowOk(Received(f, n))
  {
    AppendAssociates(f.consumed, f.channel[..n], f.channel[n..]);
    assert f.channel[..n] + f.channel[n..] == f.channel;
  }

  lemma ConsumedIsAPrefix(f: Flow)
    requires FlowOk(f)
    ensures f.consumed == f.packet[..|f.consumed|]
  {
    var k := |f.consumed|;
    AppendAssociates(f.consumed, f.channel, f.unsent);
    assert (f.consumed + (f.channel + f.unsent))[..k] == f.consumed;
    assert (f.packet + f.tls)[..k] == f.packet[..k];
  }

  lemma RecvKeeps(out: Flow, inp: Flow, phase: Phase, n: nat, parse: VersionParser)
    requires FlowOk(out) && FlowOk(inp) && PhaseOk(phase, out, inp, parse) && CanRecv(inp, phase, n)
    ensures FlowOk(Received(inp, n))
    ensures PhaseOk(AfterRecv(phase, inp.channel[..n], parse), out, Received(inp, n), parse)
  {
    var chunk, next := inp.channel[..n], Received(inp, n);
    ReceivedFlowIsOk(inp, n);
    ConsumedIsAPrefix(next);
    match phase
    case ReadingSize(buf) =>
      assert next.consumed == buf + chunk;
    case ReadingPayload(size, buf) =>
      assert next.consumed[LEN_SIZE..] == buf + chunk;
      assert |buf + chunk| == size ==> next.consumed == next.packet;
    case _ =>
  }

  lemma TlsSendKeeps(out: Flow, inp: Flow, data: seq<byte>, parse: VersionParser)
    requires FlowOk(out) && FlowOk(inp) && PhaseOk(Done, out, inp, parse) && CanTlsSend(out, Done, data)
    ensures var out' := out.(channel := out.channel + data, tls := out.tls + data);
            FlowOk(out') && PhaseOk(Done, out', inp, parse)
  {
    assert out.consumed + out.channel + [] == out.consumed + out.channel;
    AppendAssociates(out.consumed, out.channel, data);
    AppendAssociates(out.packet, out.tls, data);
    assert out.consumed + (out.channel + data) + [] == out.consumed + (out.channel + data);
  }

  lemma StepKeeps(s: System, a: Action, parse: VersionParser)
    requires Inv(s, parse) && Enabled(s, a)
    ensures Inv(Apply(s, a, parse), parse)
  {
    match a
    case Send(A, n) => SendKeeps(s.ab, s.ba, s.phaseA, n, parse);
    case Send(B, n) => SendKeeps(s.ba, s.ab, s.phaseB, n, parse);
    case Recv(A, n) => RecvKeeps(s.ab, s.ba, s.phaseA, n, parse);
    case Recv(B, n) => RecvKeeps(s.ba, s.ab, s.phaseB, n, parse);
    case TlsSend(A, data) => TlsSendKeeps(s.ab, s.ba, data, parse);
    case TlsSend(B, data) => TlsSendKeeps(s.ba, s.ab, data, parse);
  }

  lemma {:induction false} RunKeeps(s: System, actions: seq<Action>, parse: VersionParser)
    requires Inv(s, parse) && IsRun(s, actions, parse)
    ensures Inv(After(s, actions, parse), parse)
    ensures After(s, actions, parse).ab.packet == s.ab.packet && After(s, actions, parse).ab.capacity == s.ab.capacity
    ensures After(s, actions, parse).ba.packet == s.ba.packet && After(s, actions, parse).ba.capacity == s.ba.capacity
    decreases |actions|
  {
    if actions == [] {
    } else {
      StepKeeps(s, actions[0], parse);
      RunKeeps(Apply(s, actions[0], parse), actions[1..], parse);
    }
  }

  // ---- Main results ----

  ghost predicate Finished(phase: Phase) {
    phase.Done? || phase.Failed?
  }

  /** In every reachable state a side that is done has consumed exactly the peer's Version packet,
      and what is still in flight towards it is exactly what the peer's TLS layer wrote. */
  lemma TlsStartsAtAPacketBoundary(bodyA: seq<byte>, bodyB: seq<byte>, capacityAB: nat, capacityBA: nat,
                                   actions: seq<Action>, parse: VersionParser)
    requires 1 + |bodyA| <= MAX_PACKET_SIZE && 1 + |bodyB| <= MAX_PACKET_SIZE
    requires IsRun(Start(bodyA, bodyB, capacityAB, capacityBA), actions, parse)
    ensures var s := After(Start(bodyA, bodyB, capacityAB, capacityBA), actions, parse);
            && (s.phaseA.Done? ==> s.ba.consumed == VersionPacket(bodyB) && s.ba.channel + s.ba.unsent == s.ba.tls)
            && (s.phaseB.Done? ==> s.ab.consumed == VersionPacket(bodyA) && s.ab.channel + s.ab.unsent == s.ab.tls)
  {
    StartIsOk(bodyA, bodyB, capacityAB, capacityBA, parse);
    RunKeeps(Start(bodyA, bodyB, capacityAB, capacityBA), actions, parse);
    var s := After(Start(bodyA, bodyB, capacityAB, capacityBA), actions, parse);
    FlowRest(s.ab);
    FlowRest(s.ba);
  }

  lemma FlowRest(f: Flow)
    requires FlowOk(f)
    ensures f.consumed == f.packet ==> f.channel + f.unsent == f.tls
  {
    AppendAssociates(f.consumed, f.channel, f.unsent);
    var rest := f.channel + f.unsent;
    assert (f.consumed + rest)[|f.consumed|..] == rest;
    assert (f.packet + f.tls)[|f.packet|..] == f.tls;
  }

  /** A side is done, and not failed, exactly when the peer announced the supported version. */
  lemma OutcomeIsDecidedByTheVersions(bodyA: seq<byte>, bodyB: seq<byte>, capacityAB: nat, capacityBA: nat,
                                      actions: seq<Action>, parse: VersionParser)
    requires 1 + |bodyA| <= MAX_PACKET_SIZE && 1 + |bodyB| <= MAX_PACKET_SIZE
    requires IsRun(Start(bodyA, bodyB, capacityAB, capacityBA), actions, parse)
    ensures var s := After(Start(bodyA, bodyB, capacityAB, capacityBA), actions, parse);
            && (Finished(s.phaseA) ==> (s.phaseA.Done? <==> parse(bodyB) == Some(PROTOCOL_VERSION)))
            && (Finished(s.phaseB) ==> (s.phaseB.Done? <==> parse(bodyA) == Some(PROTOCOL_VERSION)))
  {
    StartIsOk(bodyA, bodyB, capacityAB, capacityBA, parse);
    RunKeeps(Start(bodyA, bodyB, capacityAB, capacityBA), actions, parse);
    assert VersionPacket(bodyA)[LEN_SIZE..][1..] == bodyA;
    assert VersionPacket(bodyB)[LEN_SIZE..][1..] == bodyB;
  }

  /** The exchange steps of every run are bounded: each one moves at least one byte, and `Work`
      counts the byte moves still to come. */
  function Work(s: System): int {
    |s.ab.unsent| + |s.ba.unsent| + (|s.ab.packet| - |s.ab.consumed|) + (|s.ba.packet| - |s.ba.consumed|)
  }

  lemma StepDoesWork(s: System, a: Action, parse: VersionParser)
    requires Enabled(s, a)
    ensures Work(Apply(s, a, parse)) <= Work(s) - if a.TlsSend? then 0 else 1
  {
  }

  lemma {:induction false} ExchangeStepsAreBounded(s: System, actions: seq<Action>, parse: VersionParser)
    requires Inv(s, parse) && IsRun(s, actions, parse)
    ensures 0 <= Work(After(s, actions, parse)) <= Work(s) - ExchangeSteps(actions)
    decreases |actions|
  {
    if actions == [] {
    } else {
      StepKeeps(s, actions[0], parse);
      StepDoesWork(s, actions[0], parse);
      ExchangeStepsAreBounded(Apply(s, actions[0], parse), actions[1..], parse);
    }
  }

  function ExchangeSteps(actions: seq<Action>): nat {
    if actions == [] then 0 else (if actions[0].TlsSend? then 0 else 1) + ExchangeSteps(actions[1..])
  }

  ghost predicate CanMove(s: System) {
    exists n :: Enabled(s, Send(A, n)) || Enabled(s, Send(B, n)) || Enabled(s, Recv(A, n)) || Enabled(s, Recv(B, n))
  }

  /** A reader whose peer has sent everything finds its bytes in the channel. */
  lemma ReaderCanMove(f: Flow, out: Flow, phase: Phase, parse: VersionParser)
    requires FlowOk(f) && FlowOk(out) && PhaseOk(phase, out, f, parse)
    requires !Finished(phase) && !phase.Sending? && (f.unsent == [] || f.channel != [])
    ensures CanRecv(f, phase, 1)
  {
    BytesAddUp(f);
  }

  lemma BytesAddUp(f: Flow)
    requires FlowOk(f)
    ensures |f.consumed| + |f.channel| + |f.unsent| == |f.packet| + |f.tls|
  {
    assert |f.consumed + f.channel + f.unsent| == |f.packet + f.tls|;
  }

  /** Deadlock freedom: if at least one direction has room for a whole Version packet (and the
      other for a byte), some side can move until both have finished. */
  lemma NeverStuck(s: System, parse: VersionParser)
    requires Inv(s, parse)
    requires s.ab.capacity > 0 && s.ba.capacity > 0
    requires s.ab.capacity >= |s.ab.packet| || s.ba.capacity >= |s.ba.packet|
    requires !(Finished(s.phaseA) && Finished(s.phaseB))
    ensures CanMove(s)
  {
    if s.ab.capacity >= |s.ab.packet| {
      RoomySideLeads(s.phaseA, s.phaseB, s.ab, s.ba, parse);
    } else {
      RoomySideLeads(s.phaseB, s.phaseA, s.ba, s.ab, parse);
    }
    assert Enabled(s, Send(A, 1)) || Enabled(s, Send(B, 1)) || Enabled(s, Recv(A, 1)) || Enabled(s, Recv(B, 1));
  }

  lemma RoomySideLeads(phase: Phase, other: Phase, out: Flow, inp: Flow, parse: VersionParser)
    requires FlowOk(out) && FlowOk(inp) && PhaseOk(phase, out, inp, parse) && PhaseOk(other, inp, out, parse)
    requires out.capacity >= |out.packet| && inp.capacity > 0
    requires !(Finished(phase) && Finished(other))
    ensures CanSend(out, phase, 1) || CanSend(inp, other, 1) || CanRecv(inp, phase, 1) || CanRecv(out, other, 1)
  {
    BytesAddUp(out);
    BytesAddUp(inp);
    if !Finished(phase) && !phase.Sending? && (inp.unsent == [] || inp.channel != []) {
      ReaderCanMove(inp, out, phase, parse);
    }
    if Finished(phase) && !other.Sending? {
      ReaderCanMove(out, inp, other, parse);
    }
  }

  ghost predicate CanFinish(s: System, parse: VersionParser) {
    exists actions :: IsRun(s, actions, parse) && BothFinished(After(s, actions, parse))
  }

  ghost predicate BothFinished(s: System) {
    Finished(s.phaseA) && Finished(s.phaseB)
  }

  lemma FinishesAfterAStep(s: System, a: Action, parse: VersionParser)
    requires Enabled(s, a) && CanFinish(Apply(s, a, parse), parse)
    ensures CanFinish(s, parse)
  {
    var next := Apply(s, a, parse);
    var actions :| IsRun(next, actions, parse) && BothFinished(After(next, actions, parse));
    assert ([a] + actions)[1..] == actions;
    assert IsRun(s, [a] + actions, parse) && After(s, [a] + actions, parse) == After(next, actions, parse);
  }

  /** A side that can move does some of the work that is left. */
  lemma NextMove(s: System, parse: VersionParser) returns (a: Action)
    requires Inv(s, parse) && CanMove(s)
    ensures Enabled(s, a) && Inv(Apply(s, a, parse), parse)
    ensures 0 <= Work(Apply(s, a, parse)) < Work(s)
    ensures SameBounds(s, Apply(s, a, parse))
  {
    a := SomeMove(s);
    StepKeeps(s, a, parse);
    StepDoesWork(s, a, parse);
    ExchangeStepsAreBounded(Apply(s, a, parse), [], parse);
  }

  ghost predicate SameBounds(s: System, t: System) {
    && s.ab.packet == t.ab.packet && s.ab.capacity == t.ab.capacity
    && s.ba.packet == t.ba.packet && s.ba.capacity == t.ba.capacity
  }

  /** Whatever has happened so far, the exchange can still be brought to its end on both sides. */
  lemma {:induction false} EveryStateCanFinish(s: System, parse: VersionParser)
    requires Inv(s, parse)
    requires s.ab.capacity > 0 && s.ba.capacity > 0
    requires s.ab.capacity >= |s.ab.packet| || s.ba.capacity >= |s.ba.packet|
    ensures CanFinish(s, parse)
    decreases Work(s)
  {
    if BothFinished(s) {
      assert IsRun(s, [], parse) && After(s, [], parse) == s;
    } else {
      NeverStuck(s, parse);
      var a := NextMove(s, parse);
      EveryStateCanFinish(Apply(s, a, parse), parse);
      FinishesAfterAStep(s, a, parse);
    }
  }

  ghost function SomeMove(s: System): (a: Action)
    requires CanMove(s)
    ensures Enabled(s, a) && !a.TlsSend?
  {
    var n :| Enabled(s, Send(A, n)) || Enabled(s, Send(B, n)) || Enabled(s, Recv(A, n)) || Enabled(s, Recv(B, n));
    if Enabled(s, Send(A, n)) then Send(A, n)
    else if Enabled(s, Send(B, n)) then Send(B, n)
    else if Enabled(s, Recv(A, n)) then Recv(A, n)
    else Recv(B, n)
  }

  /** Every run between two sides can be continued to a run in which both finish. */
  lemma EveryRunCanFinish(bodyA: seq<byte>, bodyB: seq<byte>, capacityAB: nat, capacityBA: nat,
                          actions: seq<Action>, parse: VersionParser)
    requires 1 + |bodyA| <= MAX_PACKET_SIZE && 1 + |bodyB| <= MAX_PACKET_SIZE
    requires capacityAB > 0 && capacityBA > 0
    requires capacityAB >= |VersionPacket(bodyA)| || capacityBA >= |VersionPacket(bodyB)|
    requires IsRun(Start(bodyA, bodyB, capacityAB, capacityBA), actions, parse)
    ensures CanFinish(After(Start(bodyA, bodyB, capacityAB, capacityBA), actions, parse), parse)
  {
    var s0 := Start(bodyA, bodyB, capacityAB, capacityBA);
    StartIsOk(bodyA, bodyB, capacityAB, capacityBA, parse);
    RunKeeps(s0, actions, parse);
    EveryStateCanFinish(After(s0, actions, parse), parse);
  }

  /** Both directions too small for a Version packet. */
  lemma BothTooSmallDeadlocks(bodyA: seq<byte>, bodyB: seq<byte>, capacityAB: nat, capacityBA: nat,
                              parse: VersionParser)
    requires 1 + |bodyA| <= MAX_PACKET_SIZE && 1 + |bodyB| <= MAX_PACKET_SIZE
    requires 0 < capacityAB < |VersionPacket(bodyA)| && 0 < capacityBA < |VersionPacket(bodyB)|
    ensures exists actions ::
              && IsRun(Start(bodyA, bodyB, capacityAB, capacityBA), actions, parse)
              && var s := After(Start(bodyA, bodyB, capacityAB, capacityBA), actions, parse);
                 !CanMove(s) && !Finished(s.phaseA) && !Finished(s.phaseB)
  {
    var s0 := Start(bodyA, bodyB, capacityAB, capacityBA);
    var s1 := Apply(s0, Send(A, capacityAB), parse);
    var s2 := Apply(s1, Send(B, capacityBA), parse);
    RunOfTwo(s0, Send(A, capacityAB), Send(B, capacityBA), parse);
    var actions := [Send(A, capacityAB), Send(B, capacityBA)];
    assert IsRun(s0, actions, parse) && After(s0, actions, parse) == s2;
  }

  lemma RunOfOne(s: System, a: Action, parse: VersionParser)
    requires Enabled(s, a)
    ensures IsRun(s, [a], parse) && After(s, [a], parse) == Apply(s, a, parse)
  {
    var next := Apply(s, a, parse);
    assert [a][1..] == [];
    assert IsRun(next, [], parse) && After(next, [], parse) == next;
  }

  lemma RunOfTwo(s: System, a: Action, b: Action, parse: VersionParser)
    requires Enabled(s, a) && Enabled(Apply(s, a, parse), b)
    ensures IsRun(s, [a, b], parse) && After(s, [a, b], parse) == Apply(Apply(s, a, parse), b, parse)
  {
    assert [a, b][1..] == [b];
    RunOfOne(Apply(s, a, parse), b, parse);
  }

  ghost predicate StuckReachable(bodyA: seq<byte>, bodyB: seq<byte>, capacityAB: nat, capacityBA: nat,
                                 parse: VersionParser)
    requires 1 + |bodyA| <= MAX_PACKET_SIZE && 1 + |bodyB| <= MAX_PACKET_SIZE
  {
    exists actions ::
      && IsRun(Start(bodyA, bodyB, capacityAB, capacityBA), actions, parse)
      && var s := After(Start(bodyA, bodyB, capacityAB, capacityBA), actions, parse);
         !CanMove(s) && !(Finished(s.phaseA) && Finished(s.phaseB))
  }

  /** "Both sides send before reading, so there is no deadlock" is true exactly when some direction
      buffers a whole Version packet. */
  lemma DeadlockFreeIffOneDirectionHoldsAPacket(bodyA: seq<byte>, bodyB: seq<byte>, capacityAB: nat, capacityBA: nat,
                                                parse: VersionParser)
    requires 1 + |bodyA| <= MAX_PACKET_SIZE && 1 + |bodyB| <= MAX_PACKET_SIZE
    requires capacityAB > 0 && capacityBA > 0
    ensures StuckReachable(bodyA, bodyB, capacityAB, capacityBA, parse) <==>
            capacityAB < |VersionPacket(bodyA)| && capacityBA < |VersionPacket(bodyB)|
  {
    var s0 := Start(bodyA, bodyB, capacityAB, capacityBA);
    if capacityAB < |VersionPacket(bodyA)| && capacityBA < |VersionPacket(bodyB)| {
      BothTooSmallDeadlocks(bodyA, bodyB, capacityAB, capacityBA, parse);
    } else {
      forall actions | IsRun(s0, actions, parse)
        ensures var s := After(s0, actions, parse); CanMove(s) || (Finished(s.phaseA) && Finished(s.phaseB))
      {
        StartIsOk(bodyA, bodyB, capacityAB, capacityBA, parse);
        RunKeeps(s0, actions, parse);
        var s := After(s0, actions, parse);
        if !(Finished(s.phaseA) && Finished(s.phaseB)) {
          NeverStuck(s, parse);
        }
      }
    }
  }

  /** The body of `encode_version(4)`: `{"version":4}` */
  const VERSION_4_BODY: seq<byte> := [0x7b, 0x22, 0x76, 0x65, 0x72, 0x73, 0x69, 0x6f, 0x6e, 0x22, 0x3a, 0x34, 0x7d]

  /** The program's own Version packets have 18 bytes, so the exchange is stuck only between two channels
      that hold fewer. */
  lemma OwnVersionsNeedEighteenBytes(capacityAB: nat, capacityBA: nat, parse: VersionParser)
    requires capacityAB > 0 && capacityBA > 0
    ensures |VersionPacket(VERSION_4_BODY)| == 18
    ensures StuckReachable(VERSION_4_BODY, VERSION_4_BODY, capacityAB, capacityBA, parse) <==>
            capacityAB < 18 && capacityBA < 18
  {
    assert |VERSION_4_BODY| == 13;
    DeadlockFreeIffOneDirectionHoldsAPacket(VERSION_4_BODY, VERSION_4_BODY, capacityAB, capacityBA, parse);
  }
}
