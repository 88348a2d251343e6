/** Whole runs of a `PacketReader`: every interleaving of its four public operations, first as
    steps on the unconsumed bytes and then executed on the buffer itself. */
module ReaderRuns {
  import opened Sequences
  import opened Framing
  import opened PacketReading

  /** `Fill(offered)` is `spare_capacity_mut`, a transport read into that slice of as much of
      `offered` as it holds, and `commit`. */
  datatype Op = Push(data: seq<byte>) | Fill(offered: seq<byte>) | Get | Drain

  datatype Event = Received(data: seq<byte>) | Refused | Got(result: ReadResult) | Drained(data: seq<byte>)

  datatype Outcome = Outcome(unconsumed: seq<byte>, events: seq<Event>)

  function StepState(u: seq<byte>, op: Op, capacity: nat, max: nat): (next: seq<byte>)
    requires |u| <= capacity
    ensures |next| <= capacity
  {
    match op
    case Push(data) => if |u| + |data| <= capacity then u + data else u
    case Fill(offered) => u + Taken(u, offered, capacity)
    case Get => if NextPacket(u, max).Read? then Rest(u, NextPacket(u, max).packet) else u
    case Drain => []
  }

  function StepEvent(u: seq<byte>, op: Op, capacity: nat, max: nat): Event
    requires |u| <= capacity
  {
    match op
    case Push(data) => if |u| + |data| <= capacity then Received(data) else Refused
    case Fill(offered) => Received(Taken(u, offered, capacity))
    case Get => Got(NextPacket(u, max))
    case Drain => Drained(u)
  }

  function Taken(u: seq<byte>, offered: seq<byte>, capacity: nat): (taken: seq<byte>)
    requires |u| <= capacity
    ensures |u| + |taken| <= capacity
  {
    if |offered| <= capacity - |u| then offered else offered[..capacity - |u|]
  }

  function Run(u: seq<byte>, ops: seq<Op>, capacity: nat, max: nat): (o: Outcome)
    requires |u| <= capacity
    ensures |o.unconsumed| <= capacity
    decreases |ops|
  {
    if ops == [] then Outcome(u, [])
    else
      var rest := Run(StepState(u, ops[0], capacity, max), ops[1..], capacity, max);
      Outcome(rest.unconsumed, [StepEvent(u, ops[0], capacity, max)] + rest.events)
  }

  method FillSpare(r: PacketReader, offered: seq<byte>) returns (taken: seq<byte>)
    requires r.Valid()
    modifies r, r.buffer
    ensures r.Valid() && |old(r.Unconsumed())| <= r.buffer.Length
    ensures taken == Taken(old(r.Unconsumed()), offered, r.buffer.Length)
    ensures r.Unconsumed() == old(r.Unconsumed()) + taken
  {
    var start := r.SpareCapacity();
    var size := r.buffer.Length - start;
    taken := if |offered| <= size then offered else offered[..size];
    r.Write(taken);
    r.Commit(|taken|);
  }

  method Perform(r: PacketReader, op: Op) returns (e: Event)
    requires r.Valid()
    modifies r, r.buffer
    ensures r.Valid()
    ensures r.Unconsumed() == StepState(old(r.Unconsumed()), op, r.buffer.Length, r.maxPacketSize)
    ensures e == StepEvent(old(r.Unconsumed()), op, r.buffer.Length, r.maxPacketSize)
  {
    match op
    case Push(data) =>
      var pushed := r.PushData(data);
      e := if pushed.Pushed? then Received(data) else Refused;
    case Fill(offered) =>
      var taken := FillSpare(r, offered);
      e := Received(taken);
    case Get =>
      var result := r.GetPacket();
      e := Got(result);
    case Drain =>
      var data := r.DrainUnparsed();
      e := Drained(data);
  }

  /** The buffer refines the run on sequences, for every interleaving. */
  method Execute(r: PacketReader, ops: seq<Op>) returns (events: seq<Event>)
    requires r.Valid()
    modifies r, r.buffer
    ensures r.Valid()
    ensures Outcome(r.Unconsumed(), events) == Run(old(r.Unconsumed()), ops, r.buffer.Length, r.maxPacketSize)
  {
    events := [];
    ghost var whole := Run(r.Unconsumed(), ops, r.buffer.Length, r.maxPacketSize);
    for i := 0 to |ops|
      invariant r.Valid()
      invariant var rest := Run(r.Unconsumed(), ops[i..], r.buffer.Length, r.maxPacketSize);
                whole == Outcome(rest.unconsumed, events + rest.events)
    {
      assert ops[i..][0] == ops[i] && ops[i..][1..] == ops[i + 1..];
      var e := Perform(r, ops[i]);
      AppendAssociates(events, [e], Run(r.Unconsumed(), ops[i + 1..], r.buffer.Length, r.maxPacketSize).events);
      events := events + [e];
    }
  }

  /** All bytes that came in, in order. */
  function Input(events: seq<Event>): seq<byte> {
    if events == [] then [] else EventInput(events[0]) + Input(events[1..])
  }

  function EventInput(e: Event): seq<byte> {
    if e.Received? then e.data else []
  }

  /** All bytes that went out, in order: the frames of returned packets and the drained bytes. */
  function Output(events: seq<Event>): seq<byte> {
    if events == [] then [] else EventOutput(events[0]) + Output(events[1..])
  }

  function EventOutput(e: Event): seq<byte> {
    match e
    case Got(Read(packet)) => Frame(packet)
    case Drained(data) => data
    case _ => []
  }

  /** The packets returned by `get_packet`, in order. */
  function Packets(events: seq<Event>): seq<seq<byte>> {
    if events == [] then [] else EventPackets(events[0]) + Packets(events[1..])
  }

  function EventPackets(e: Event): seq<seq<byte>> {
    match e
    case Got(Read(packet)) => [packet]
    case _ => []
  }

  lemma StepConservesBytes(u: seq<byte>, op: Op, capacity: nat, max: nat)
    requires |u| <= capacity
    ensures u + EventInput(StepEvent(u, op, capacity, max)) ==
            EventOutput(StepEvent(u, op, capacity, max)) + StepState(u, op, capacity, max)
  {
    if op.Get? && NextPacket(u, max).Read? {
      ReadIsFramed(u, max, NextPacket(u, max).packet);
    }
  }

  /** Over every run nothing is lost, duplicated or reordered: what was buffered and what came in
      is exactly what went out and what is still buffered. */
  lemma {:induction false} BytesAreConserved(u: seq<byte>, ops: seq<Op>, capacity: nat, max: nat)
    requires |u| <= capacity
    ensures var o := Run(u, ops, capacity, max);
            u + Input(o.events) == Output(o.events) + o.unconsumed
    decreases |ops|
  {
    if ops == [] {
    } else {
      var e, next := StepEvent(u, ops[0], capacity, max), StepState(u, ops[0], capacity, max);
      var later := Run(next, ops[1..], capacity, max);
      StepConservesBytes(u, ops[0], capacity, max);
      BytesAreConserved(next, ops[1..], capacity, max);
      assert ([e] + later.events)[1..] == later.events;
      AppendAssociates(u, EventInput(e), Input(later.events));
      AppendAssociates(EventOutput(e), next, Input(later.events));
      AppendAssociates(EventOutput(e), Output(later.events), later.unconsumed);
    }
  }

  ghost predicate NoDrain(ops: seq<Op>) {
    forall i :: 0 <= i < |ops| ==> !ops[i].Drain?
  }

  /** In a run without a drain the returned packets, followed by those still buffered, are
      exactly what the reference parser finds in the whole stream. */
  lemma {:induction false} PacketsAreParsed(u: seq<byte>, ops: seq<Op>, capacity: nat, max: nat)
    requires |u| <= capacity && NoDrain(ops)
    ensures var o := Run(u, ops, capacity, max);
            var left := Parse(o.unconsumed, max);
            Parse(u + Input(o.events), max) == Parsed(Packets(o.events) + left.packets, left.rest)
    decreases |ops|
  {
    if ops == [] {
      assert u + [] == u;
    } else {
      var e, next := StepEvent(u, ops[0], capacity, max), StepState(u, ops[0], capacity, max);
      var later := Run(next, ops[1..], capacity, max);
      PacketsAreParsed(next, ops[1..], capacity, max);
      assert ([e] + later.events)[1..] == later.events;
      StepIsParsed(u, ops[0], Input(later.events), capacity, max);
      AppendAssociates(EventPackets(e), Packets(later.events), Parse(later.unconsumed, max).packets);
    }
  }

  lemma StepIsParsed(u: seq<byte>, op: Op, more: seq<byte>, capacity: nat, max: nat)
    requires |u| <= capacity && !op.Drain?
    ensures var e := StepEvent(u, op, capacity, max);
            var later := Parse(StepState(u, op, capacity, max) + more, max);
            Parse(u + (EventInput(e) + more), max) == Parsed(EventPackets(e) + later.packets, later.rest)
  {
    var e := StepEvent(u, op, capacity, max);
    if op.Get? {
      assert EventInput(e) + more == more;
      if NextPacket(u, max).Read? {
        DecisionIsStable(u, more, max);
      }
    } else {
      assert u + (EventInput(e) + more) == StepState(u, op, capacity, max) + more by {
        AppendAssociates(u, EventInput(e), more);
        assert u + EventInput(e) == StepState(u, op, capacity, max);
      }
    }
  }

  /** Once every complete packet was asked for, packets and leftover are the reference parser's. */
  lemma AllPacketsTaken(u: seq<byte>, ops: seq<Op>, capacity: nat, max: nat)
    requires |u| <= capacity && NoDrain(ops)
    requires !NextPacket(Run(u, ops, capacity, max).unconsumed, max).Read?
    ensures var o := Run(u, ops, capacity, max);
            Parse(u + Input(o.events), max) == Parsed(Packets(o.events), o.unconsumed)
  {
    PacketsAreParsed(u, ops, capacity, max);
    var packets := Packets(Run(u, ops, capacity, max).events);
    assert packets + [] == packets;
  }

  /** Packet extraction does not depend on chunking, on the feeding API, or on when packets are
      asked for: two runs that received the same stream and took every packet agree. */
  lemma ChunkingIsIrrelevant(ops: seq<Op>, capacity: nat, ops': seq<Op>, capacity': nat, max: nat)
    requires NoDrain(ops) && NoDrain(ops')
    requires var o, o' := Run([], ops, capacity, max), Run([], ops', capacity', max);
             && Input(o.events) == Input(o'.events)
             && !NextPacket(o.unconsumed, max).Read? && !NextPacket(o'.unconsumed, max).Read?
    ensures var o, o' := Run([], ops, capacity, max), Run([], ops', capacity', max);
            Packets(o.events) == Packets(o'.events) && o.unconsumed == o'.unconsumed
  {
    AllPacketsTaken([], ops, capacity, max);
    AllPacketsTaken([], ops', capacity', max);
  }

  /** Framing any list of acceptable bodies and reading them back, fed in any way, gives the list. */
  lemma FramedBodiesReadBack(bodies: seq<seq<byte>>, ops: seq<Op>, capacity: nat, max: nat)
    requires Acceptable(bodies, max) && NoDrain(ops)
    requires var o := Run([], ops, capacity, max);
             Input(o.events) == Frames(bodies) && !NextPacket(o.unconsumed, max).Read?
    ensures var o := Run([], ops, capacity, max);
            Packets(o.events) == bodies && o.unconsumed == []
  {
    AllPacketsTaken([], ops, capacity, max);
    FramesParseBack(bodies, [], max);
    assert [] + Input(Run([], ops, capacity, max).events) == Frames(bodies) + [];
    assert bodies + [] == bodies;
  }

  /** A run can be cut anywhere. */
  lemma {:induction false} RunSplits(u: seq<byte>, before: seq<Op>, after: seq<Op>, capacity: nat, max: nat)
    requires |u| <= capacity
    ensures var first := Run(u, before, capacity, max);
            var second := Run(first.unconsumed, after, capacity, max);
            Run(u, before + after, capacity, max) == Outcome(second.unconsumed, first.events + second.events)
    decreases |before|
  {
    if before == [] {
      assert before + after == after;
    } else {
      assert (before + after)[1..] == before[1..] + after;
      var e, next := StepEvent(u, before[0], capacity, max), StepState(u, before[0], capacity, max);
      RunSplits(next, before[1..], after, capacity, max);
      var first := Run(next, before[1..], capacity, max);
      AppendAssociates([e], first.events, Run(first.unconsumed, after, capacity, max).events);
    }
  }

  lemma OutputOfPackets(e: Event)
    requires !e.Drained?
    ensures EventOutput(e) == Frames(EventPackets(e))
  {
    match e
    case Got(Read(p)) => FramesCons(p, []);
    case _ =>
  }

  lemma {:induction false} OutputWithoutDrain(u: seq<byte>, ops: seq<Op>, capacity: nat, max: nat)
    requires |u| <= capacity && NoDrain(ops)
    ensures var events := Run(u, ops, capacity, max).events; Output(events) == Frames(Packets(events))
    decreases |ops|
  {
    if ops == [] {
    } else {
      var e, next := StepEvent(u, ops[0], capacity, max), StepState(u, ops[0], capacity, max);
      var later := Run(next, ops[1..], capacity, max).events;
      OutputWithoutDrain(next, ops[1..], capacity, max);
      assert ([e] + later)[1..] == later;
      FramesAppend(EventPackets(e), Packets(later));
      OutputOfPackets(e);
    }
  }

  /** At a hand-over the drained bytes are exactly the stream behind the last returned packet,
      and the reader starts afresh. */
  lemma DrainIsTheStreamSuffix(u: seq<byte>, before: seq<Op>, capacity: nat, max: nat)
    requires |u| <= capacity && NoDrain(before)
    ensures var first := Run(u, before, capacity, max);
            var o := Run(u, before + [Drain], capacity, max);
            && o == Outcome([], first.events + [Drained(first.unconsumed)])
            && u + Input(first.events) == Frames(Packets(first.events)) + first.unconsumed
  {
    var first := Run(u, before, capacity, max);
    RunSplits(u, before, [Drain], capacity, max);
    assert Run(first.unconsumed, [Drain], capacity, max) == Outcome([], [Drained(first.unconsumed)]);
    BytesAreConserved(u, before, capacity, max);
    OutputWithoutDrain(u, before, capacity, max);
  }

  // ---- After a drain the reader serves the next stream ----

  /** The events behind the last drain. */
  function SinceDrain(events: seq<Event>): seq<Event> {
    if events == [] || events[|events| - 1].Drained? then []
    else SinceDrain(events[..|events| - 1]) + [events[|events| - 1]]
  }

  ghost predicate Undrained(events: seq<Event>) {
    forall i :: 0 <= i < |events| ==> !events[i].Drained?
  }

  lemma {:induction false} SinceDrainOfUndrained(events: seq<Event>)
    requires Undrained(events)
    ensures SinceDrain(events) == events
  {
    if events == [] {
    } else {
      SinceDrainOfUndrained(events[..|events| - 1]);
    }
  }

  lemma {:induction false} SinceDrainOfBoth(before: seq<Event>, data: seq<byte>, since: seq<Event>)
    requires Undrained(since)
    ensures SinceDrain(before + ([Drained(data)] + since)) == since
  {
    var events := before + ([Drained(data)] + since);
    if since == [] {
      assert events[|events| - 1] == Drained(data);
    } else {
      var front, last := since[..|since| - 1], since[|since| - 1];
      SinceDrainOfBoth(before, data, front);
      assert events[..|events| - 1] == before + ([Drained(data)] + front);
      assert events[|events| - 1] == last;
    }
  }

  lemma {:induction false} NoDrainNoDrained(u: seq<byte>, ops: seq<Op>, capacity: nat, max: nat)
    requires |u| <= capacity && NoDrain(ops)
    ensures Undrained(Run(u, ops, capacity, max).events)
    decreases |ops|
  {
    if ops == [] {
    } else {
      NoDrainNoDrained(StepState(u, ops[0], capacity, max), ops[1..], capacity, max);
    }
  }

  lemma {:induction false} LastDrain(ops: seq<Op>) returns (before: seq<Op>, after: seq<Op>)
    requires !NoDrain(ops)
    ensures ops == before + ([Drain] + after) && NoDrain(after)
  {
    var front, last := ops[..|ops| - 1], ops[|ops| - 1];
    if last.Drain? {
      before, after := front, [];
    } else {
      before, after := LastDrain(front);
      assert ops == before + ([Drain] + (after + [last]));
      after := after + [last];
    }
  }

  lemma RunWithDrain(u: seq<byte>, before: seq<Op>, after: seq<Op>, capacity: nat, max: nat)
    requires |u| <= capacity
    ensures var first := Run(u, before, capacity, max);
            var since := Run([], after, capacity, max);
            Run(u, before + ([Drain] + after), capacity, max) ==
              Outcome(since.unconsumed, first.events + ([Drained(first.unconsumed)] + since.events))
  {
    RunSplits(u, before, [Drain] + after, capacity, max);
    assert ([Drain] + after)[1..] == after;
  }

  /** The reader is used on after a drain. For every run, the packets returned since the last drain, followed
      by those still buffered, are exactly what the reference parser finds in the bytes received since then. */
  lemma PacketsSinceTheLastDrain(u: seq<byte>, ops: seq<Op>, capacity: nat, max: nat)
    requires |u| <= capacity
    ensures var o := Run(u, ops, capacity, max);
            var since := SinceDrain(o.events);
            var kept := if NoDrain(ops) then u else [];
            var left := Parse(o.unconsumed, max);
            Parse(kept + Input(since), max) == Parsed(Packets(since) + left.packets, left.rest)
  {
    if NoDrain(ops) {
      NoDrainNoDrained(u, ops, capacity, max);
      SinceDrainOfUndrained(Run(u, ops, capacity, max).events);
      PacketsAreParsed(u, ops, capacity, max);
    } else {
      var before, after := LastDrain(ops);
      RunWithDrain(u, before, after, capacity, max);
      NoDrainNoDrained([], after, capacity, max);
      var first, since := Run(u, before, capacity, max), Run([], after, capacity, max);
      SinceDrainOfBoth(first.events, first.unconsumed, since.events);
      PacketsAreParsed([], after, capacity, max);
    }
  }

  /** In the drain loop: `packets` are out, `stop` is the latest result and `u` what it left. */
  ghost predicate Taking(whole: Parsed, packets: seq<seq<byte>>, stop: ReadResult, u: seq<byte>, max: nat) {
    if stop.Read? then
      var left := Parse(u, max);
      whole == Parsed(packets + ([stop.packet] + left.packets), left.rest)
    else
      whole == Parsed(packets, u) && stop == NextPacket(u, max)
  }

  lemma TakeNext(whole: Parsed, packets: seq<seq<byte>>, u: seq<byte>, max: nat)
    requires var left := Parse(u, max); whole == Parsed(packets + left.packets, left.rest)
    ensures var stop := NextPacket(u, max);
            Taking(whole, packets, stop, if stop.Read? then Rest(u, stop.packet) else u, max)
  {
    assert packets + [] == packets;
  }

  lemma TookOne(whole: Parsed, packets: seq<seq<byte>>, packet: seq<byte>, u: seq<byte>, max: nat)
    requires Taking(whole, packets, Read(packet), u, max)
    ensures var left := Parse(u, max); whole == Parsed(packets + [packet] + left.packets, left.rest)
  {
    AppendAssociates(packets, [packet], Parse(u, max).packets);
  }

  /** Takes every complete packet. Each one consumes at least its length field, so the loop ends. */
  method TakePackets(r: PacketReader) returns (packets: seq<seq<byte>>, stop: ReadResult)
    requires r.Valid()
    modifies r
    ensures r.Valid() && !stop.Read?
    ensures Parsed(packets, r.Unconsumed()) == Parse(old(r.Unconsumed()), r.maxPacketSize)
    ensures stop == NextPacket(r.Unconsumed(), r.maxPacketSize)
  {
    packets := [];
    ghost var whole := Parse(r.Unconsumed(), r.maxPacketSize);
    assert [] + whole.packets == whole.packets;
    TakeNext(whole, packets, r.Unconsumed(), r.maxPacketSize);
    stop := r.GetPacket();
    while stop.Read?
      invariant r.Valid() && Taking(whole, packets, stop, r.Unconsumed(), r.maxPacketSize)
      decreases stop.Read?, |r.Unconsumed()|
    {
      TookOne(whole, packets, stop.packet, r.Unconsumed(), r.maxPacketSize);
      packets := packets + [stop.packet];
      TakeNext(whole, packets, r.Unconsumed(), r.maxPacketSize);
      stop := r.GetPacket();
    }
  }

  /** One transport read of at most `wanted` bytes (0 meaning all) straight into the spare slice.
      The slice is never empty after `NeedData`, so at least one byte is read. */
  method Refill(r: PacketReader, available: seq<byte>, wanted: nat) returns (chunk: seq<byte>)
    requires r.Valid() && NextPacket(r.Unconsumed(), r.maxPacketSize) == NeedData && available != []
    modifies r, r.buffer
    ensures r.Valid() && chunk != [] && chunk <= available
    ensures r.Unconsumed() == old(r.Unconsumed()) + chunk
  {
    var start := r.SpareCapacity();
    var size := r.buffer.Length - start;
    assert size > 0;
    var take := if wanted == 0 || wanted > size then size else wanted;
    take := if take > |available| then |available| else take;
    chunk := available[..take];
    r.Write(chunk);
    r.Commit(take);
  }

  /** Behind an oversized length nothing is ever read, whatever arrives. */
  lemma StuckForGood(s: seq<byte>, more: seq<byte>, max: nat)
    requires NextPacket(Parse(s, max).rest, max).PacketTooLarge?
    ensures Parse(s + more, max) == Parsed(Parse(s, max).packets, Parse(s, max).rest + more)
    ensures NextPacket(Parse(s + more, max).rest, max).PacketTooLarge?
  {
    ParseResumes(s, more, max);
    DecisionIsStable(Parse(s, max).rest, more, max);
    assert Parse(s, max).packets + [] == Parse(s, max).packets;
  }

  /** In the receive loop: `seen` was read, `left` was not, and every complete packet is out. */
  ghost predicate Receiving(stream: seq<byte>, seen: seq<byte>, left: seq<byte>, packets: seq<seq<byte>>, u: seq<byte>,
                            max: nat) {
    seen + left == stream && Parse(seen, max) == Parsed(packets, u)
  }

  lemma ReceiveMore(stream: seq<byte>, seen: seq<byte>, chunk: seq<byte>, left: seq<byte>, packets: seq<seq<byte>>,
                    u: seq<byte>, taken: seq<seq<byte>>, u': seq<byte>, max: nat)
    requires Receiving(stream, seen, chunk + left, packets, u, max) && Parse(u + chunk, max) == Parsed(taken, u')
    ensures Receiving(stream, seen + chunk, left, packets + taken, u', max)
  {
    ParseResumes(seen, chunk, max);
    AppendAssociates(seen, chunk, left);
  }

  lemma ReceiveTooLarge(stream: seq<byte>, seen: seq<byte>, left: seq<byte>, packets: seq<seq<byte>>, u: seq<byte>,
                        max: nat)
    requires Receiving(stream, seen, left, packets, u, max) && NextPacket(u, max).PacketTooLarge?
    ensures Parse(stream, max).packets == packets && NextPacket(Parse(stream, max).rest, max).PacketTooLarge?
  {
    StuckForGood(seen, left, max);
  }

  /** The receive loop over a finished stream: refill, then take every packet. No read is ever
      mistaken for the end of the stream, and the loop ends with every packet out. */
  method ReceiveStream(r: PacketReader, stream: seq<byte>, wanted: nat)
    returns (packets: seq<seq<byte>>, tooLarge: bool)
    requires r.Valid() && r.Unconsumed() == []
    modifies r, r.buffer
    ensures r.Valid()
    ensures tooLarge <==> NextPacket(Parse(stream, r.maxPacketSize).rest, r.maxPacketSize).PacketTooLarge?
    ensures packets == Parse(stream, r.maxPacketSize).packets
    ensures !tooLarge ==> r.Unconsumed() == Parse(stream, r.maxPacketSize).rest
  {
    packets, tooLarge := [], false;
    ghost var seen: seq<byte> := [];
    var left := stream;
    assert seen + left == stream;
    while left != []
      invariant r.Valid() && Receiving(stream, seen, left, packets, r.Unconsumed(), r.maxPacketSize)
      invariant NextPacket(r.Unconsumed(), r.maxPacketSize) == NeedData
      decreases |left|
    {
      ghost var u := r.Unconsumed();
      var chunk := Refill(r, left, wanted);
      var taken, stop := TakePackets(r);
      assert left == chunk + left[|chunk|..];
      ReceiveMore(stream, seen, chunk, left[|chunk|..], packets, u, taken, r.Unconsumed(), r.maxPacketSize);
      seen, left, packets := seen + chunk, left[|chunk|..], packets + taken;
      if stop.PacketTooLarge? {
        ReceiveTooLarge(stream, seen, left, packets, r.Unconsumed(), r.maxPacketSize);
        return packets, true;
      }
    }
    assert seen + [] == seen;
  }
}
