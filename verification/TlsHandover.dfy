/** The hand-over of a plaintext connection to TLS: bytes drained from the packet reader are
    replayed by `PrefixedRead` ahead of the socket, for every size of read buffer and every
    behaviour of the socket. */
module TlsHandover {
  import opened Sequences
  import opened Framing
  import opened PacketReading
  import opened ReaderRuns

  /** What the socket does when it is polled; `Deliver(n)` offers `n` bytes, of which it hands over
      at most those that are there and that fit. */
  datatype SocketChoice = Block | Deliver(n: nat) | Break

  datatype Poll = Pending | ReadyOk | ReadyErr

  function Min(a: nat, b: nat): nat {
    if a <= b then a else b
  }

  /** The caller's buffer: `filled` bytes of `storage` are in use. */
  class ReadBuf {
    const storage: array<byte>
    var filled: nat

    ghost predicate Valid()
      reads this
    {
      filled <= storage.Length
    }

    ghost function Filled(): seq<byte>
      requires Valid()
      reads this, storage
    {
      storage[..filled]
    }

    constructor (capacity: nat)
      ensures Valid() && filled == 0 && storage.Length == capacity && fresh(storage)
    {
      storage := new byte[capacity](_ => 0);
      filled := 0;
    }

    function Remaining(): nat
      requires Valid()
      reads this
    {
      storage.Length - filled
    }

    method PutSlice(data: seq<byte>)
      requires Valid() && |data| <= Remaining()
      modifies this, storage
      ensures Valid() && Filled() == old(Filled()) + data
    {
      forall i | 0 <= i < |data| {
        storage[filled + i] := data[i];
      }
      ghost var before := old(Filled());
      assert storage[..filled] == before;
      filled := filled + |data|;
      assert storage[..filled] == before + data;
    }
  }

  /** A connected socket: the bytes its peer sent that were not read yet. */
  class Socket {
    var incoming: seq<byte>

    constructor (incoming: seq<byte>)
      ensures this.incoming == incoming
    {
      this.incoming := incoming;
    }

    method PollRead(buf: ReadBuf, choice: SocketChoice) returns (poll: Poll)
      requires buf.Valid()
      modifies this, buf, buf.storage
      ensures buf.Valid()
      ensures poll == PollOf(choice)
      ensures var n := if choice.Deliver? then Min(choice.n, Min(|old(incoming)|, old(buf.Remaining()))) else 0;
              buf.Filled() == old(buf.Filled()) + old(incoming)[..n] && incoming == old(incoming)[n..]
    {
      match choice
      case Block => poll := Pending;
      case Break => poll := ReadyErr;
      case Deliver(k) =>
        var n := Min(k, Min(|incoming|, buf.Remaining()));
        buf.PutSlice(incoming[..n]);
        incoming := incoming[n..];
        poll := ReadyOk;
    }
  }

  function PollOf(choice: SocketChoice): Poll {
    match choice
    case Block => Pending
    case Deliver(_) => ReadyOk
    case Break => ReadyErr
  }

  /** How many bytes one poll with `room` free bytes takes off the front of the stream. */
  function PollCount(prefixLeft: nat, socketLeft: nat, room: nat, choice: SocketChoice): nat {
    if prefixLeft > 0 then Min(prefixLeft, room)
    else if choice.Deliver? then Min(choice.n, Min(socketLeft, room))
    else 0
  }

  class PrefixedRead {
    const prefix: seq<byte>
    var pos: nat
    const inner: Socket

    ghost predicate Valid()
      reads this
    {
      pos <= |prefix|
    }

    constructor (prefix: seq<byte>, inner: Socket)
      ensures Valid() && this.inner == inner && this.prefix == prefix && pos == 0
    {
      this.prefix := prefix;
      this.pos := 0;
      this.inner := inner;
    }

    /** What a reader will still see. */
    ghost function Stream(): seq<byte>
      requires Valid()
      reads this, inner
    {
      prefix[pos..] + inner.incoming
    }

    /** Each poll moves the next bytes of the stream into the buffer. While prefix remains the
        socket is not touched, the poll is ready, and it yields at least one byte whenever the
        buffer has room: it never looks like the end of the stream. */
    method PollRead(buf: ReadBuf, choice: SocketChoice) returns (poll: Poll)
      requires Valid() && buf.Valid()
      modifies this, inner, buf, buf.storage
      ensures Valid() && buf.Valid()
      ensures var n := PollCount(|prefix| - old(pos), |old(inner.incoming)|, old(buf.Remaining()), choice);
              && n <= |old(Stream())|
              && buf.Filled() == old(buf.Filled()) + old(Stream())[..n]
              && Stream() == old(Stream())[n..]
              && pos == Min(old(pos) + n, |prefix|)
      ensures old(pos) < |prefix| ==> poll == ReadyOk && inner.incoming == old(inner.incoming)
      ensures old(pos) < |prefix| && old(buf.Remaining()) > 0 ==> buf.filled > old(buf.filled)
      ensures old(pos) == |prefix| ==> poll == PollOf(choice)
    {
      ghost var stream := Stream();
      if pos < |prefix| {
        var remaining := prefix[pos..];
        var n := Min(|remaining|, buf.Remaining());
        buf.PutSlice(remaining[..n]);
        pos := pos + n;
        assert remaining[..n] == stream[..n] && Stream() == stream[n..];
        return ReadyOk;
      }
      assert stream == inner.incoming;
      poll := inner.PollRead(buf, choice);
    }
  }

  /** One read of a schedule: the size of the caller's buffer and what the socket does. */
  datatype ReadStep = ReadStep(room: nat, choice: SocketChoice)

  /** What was read, the prefix left, and what is left on the socket. */
  datatype Reading = Reading(got: seq<byte>, prefix: seq<byte>, socket: seq<byte>)

  function ObtainedOnce(prefix: seq<byte>, socket: seq<byte>, step: ReadStep): Reading {
    var n := PollCount(|prefix|, |socket|, step.room, step.choice);
    if prefix != [] then Reading(prefix[..n], prefix[n..], socket)
    else Reading(socket[..n], [], socket[n..])
  }

  /** The bytes a schedule of reads obtains from `prefix` followed by the socket. */
  function Obtained(prefix: seq<byte>, socket: seq<byte>, schedule: seq<ReadStep>): Reading
    decreases |schedule|
  {
    if schedule == [] then Reading([], prefix, socket)
    else
      var once := ObtainedOnce(prefix, socket, schedule[0]);
      var later := Obtained(once.prefix, once.socket, schedule[1..]);
      Reading(once.got + later.got, later.prefix, later.socket)
  }

  lemma OneReadConserves(prefix: seq<byte>, socket: seq<byte>, step: ReadStep)
    ensures var once := ObtainedOnce(prefix, socket, step);
            && once.got + (once.prefix + once.socket) == prefix + socket
            && (once.prefix != [] ==> once.socket == socket)
  {
    var n := PollCount(|prefix|, |socket|, step.room, step.choice);
    if prefix != [] {
      AppendAssociates(prefix[..n], prefix[n..], socket);
    } else {
      assert [] + socket[n..] == socket[n..] && [] + socket == socket;
    }
  }

  /** For every schedule nothing is lost, duplicated or reordered, and the socket is untouched while
      prefix remains. */
  lemma {:induction false} ReadsReplayTheStream(prefix: seq<byte>, socket: seq<byte>, schedule: seq<ReadStep>)
    ensures var r := Obtained(prefix, socket, schedule);
            && r.got + (r.prefix + r.socket) == prefix + socket
            && (r.prefix != [] ==> r.socket == socket)
    decreases |schedule|
  {
    if schedule == [] {
      assert [] + (prefix + socket) == prefix + socket;
    } else {
      var once := ObtainedOnce(prefix, socket, schedule[0]);
      var later := Obtained(once.prefix, once.socket, schedule[1..]);
      OneReadConserves(prefix, socket, schedule[0]);
      ReadsReplayTheStream(once.prefix, once.socket, schedule[1..]);
      AppendAssociates(once.got, later.got, later.prefix + later.socket);
    }
  }

  ghost predicate AllHaveRoom(schedule: seq<ReadStep>) {
    forall i :: 0 <= i < |schedule| ==> schedule[i].room > 0
  }

  /** Reads into non-empty buffers finish the prefix in at most as many steps as it has bytes. */
  lemma {:induction false} PrefixIsFinished(prefix: seq<byte>, socket: seq<byte>, schedule: seq<ReadStep>)
    requires AllHaveRoom(schedule) && |prefix| <= |schedule|
    ensures Obtained(prefix, socket, schedule).prefix == []
    decreases |schedule|
  {
    if schedule == [] {
    } else {
      var once := ObtainedOnce(prefix, socket, schedule[0]);
      PrefixIsFinished(once.prefix, once.socket, schedule[1..]);
    }
  }

  method ReadOnce(p: PrefixedRead, step: ReadStep) returns (chunk: seq<byte>)
    requires p.Valid()
    modifies p, p.inner
    ensures p.Valid()
    ensures Reading(chunk, p.prefix[p.pos..], p.inner.incoming)
         == ObtainedOnce(p.prefix[old(p.pos)..], old(p.inner.incoming), step)
  {
    ghost var prefix, socket := p.prefix[p.pos..], p.inner.incoming;
    var buf := new ReadBuf(step.room);
    var poll := p.PollRead(buf, step.choice);
    chunk := buf.storage[..buf.filled];
    ghost var n := PollCount(|prefix|, |socket|, step.room, step.choice);
    assert chunk == (prefix + socket)[..n];
    if prefix != [] {
      assert chunk == prefix[..n] && p.prefix[p.pos..] == prefix[n..];
    } else {
      assert prefix + socket == socket && p.prefix[p.pos..] == [];
      assert [] + p.inner.incoming == p.inner.incoming;
    }
  }

  /** A schedule of reads carried out on a `PrefixedRead`, each into its own buffer. */
  method ReadSchedule(p: PrefixedRead, schedule: seq<ReadStep>) returns (got: seq<byte>)
    requires p.Valid()
    modifies p, p.inner
    ensures p.Valid()
    ensures Reading(got, p.prefix[p.pos..], p.inner.incoming)
         == Obtained(p.prefix[old(p.pos)..], old(p.inner.incoming), schedule)
  {
    got := [];
    ghost var whole := Obtained(p.prefix[p.pos..], p.inner.incoming, schedule);
    assert schedule[0..] == schedule && [] + whole.got == whole.got;
    for i := 0 to |schedule|
      invariant p.Valid()
      invariant var later := Obtained(p.prefix[p.pos..], p.inner.incoming, schedule[i..]);
                whole == Reading(got + later.got, later.prefix, later.socket)
    {
      assert schedule[i..][0] == schedule[i] && schedule[i..][1..] == schedule[i + 1..];
      var chunk := ReadOnce(p, schedule[i]);
      AppendAssociates(got, chunk, Obtained(p.prefix[p.pos..], p.inner.incoming, schedule[i + 1..]).got);
      got := got + chunk;
    }
    assert got + [] == got;
  }

  datatype NetworkStream = NoStream | Tcp(socket: Socket) | Tls(transport: PrefixedRead)

  /** How the TLS accept ends. */
  datatype Handshake = Accepted | TimedOut | Refused

  datatype UpgradeResult = Upgraded | UpgradeError

  class Connection {
    var stream: NetworkStream

    constructor (socket: Socket)
      ensures stream == Tcp(socket)
    {
      stream := Tcp(socket);
    }

    /** Upgrades a TCP stream; the accept performs the reads of `schedule` and returns what it saw
        in `hello`. An accept that fails or times out leaves no stream at all, because the old one
        was taken out first; a stream that is not TCP is put back as it was. */
    method UpgradeWithPrefix(prefix: seq<byte>, schedule: seq<ReadStep>, outcome: Handshake)
      returns (r: UpgradeResult, hello: seq<byte>)
      requires stream.Tls? ==> stream.transport.Valid()
      modifies this, if stream.Tcp? then {stream.socket} else {}
      ensures !old(stream).Tcp? ==> stream == old(stream) && r == Upgraded && hello == []
      ensures old(stream).Tcp? ==>
                && (r == Upgraded <==> outcome == Accepted)
                && (outcome != Accepted ==> stream == NoStream)
                && (outcome == Accepted ==>
                      && stream.Tls? && fresh(stream.transport) && stream.transport.Valid()
                      && stream.transport.inner == old(stream.socket)
                      && hello + stream.transport.Stream() == prefix + old(stream.socket.incoming))
    {
      var previous := stream;
      stream := NoStream;
      hello := [];
      match previous
      case Tcp(socket) =>
        var p := new PrefixedRead(prefix, socket);
        ghost var before := socket.incoming;
        hello := ReadSchedule(p, schedule);
        ReadsReplayTheStream(prefix, before, schedule);
        assert prefix[0..] == prefix;
        if outcome != Accepted {
          return UpgradeError, hello;
        }
        stream := Tls(p);
        r := Upgraded;
      case _ =>
        stream := previous;
        r := Upgraded;
    }
  }

  /** The receiver's hand-over: drain the reader, upgrade with what it held. */
  method HandOver(reader: PacketReader, connection: Connection, schedule: seq<ReadStep>, outcome: Handshake)
    returns (r: UpgradeResult, hello: seq<byte>)
    requires reader.Valid() && connection.stream.Tcp?
    modifies reader, connection, connection.stream.socket
    ensures reader.Valid() && reader.Unconsumed() == []
    ensures r == Upgraded <==> outcome == Accepted
    ensures r == Upgraded ==>
              && connection.stream.Tls? && connection.stream.transport.Valid()
              && hello + connection.stream.transport.Stream()
                 == old(reader.Unconsumed()) + old(connection.stream.socket.incoming)
  {
    var prefix := reader.DrainUnparsed();
    r, hello := connection.UpgradeWithPrefix(prefix, schedule, outcome);
  }

  /** End to end: the packets returned before the hand-over and the bytes TLS sees are together
      exactly what the peer sent, so TLS starts right behind the last returned packet. */
  lemma TlsSeesTheStreamSuffix(ops: seq<Op>, capacity: nat, max: nat, socket: seq<byte>, schedule: seq<ReadStep>)
    requires NoDrain(ops)
    ensures var before := Run([], ops, capacity, max);
            var tls := Obtained(before.unconsumed, socket, schedule);
            Frames(Packets(before.events)) + (tls.got + (tls.prefix + tls.socket)) == Input(before.events) + socket
  {
    var before := Run([], ops, capacity, max);
    DrainIsTheStreamSuffix([], ops, capacity, max);
    ReadsReplayTheStream(before.unconsumed, socket, schedule);
    assert [] + Input(before.events) == Input(before.events);
    AppendAssociates(Frames(Packets(before.events)), before.unconsumed, socket);
  }
}
