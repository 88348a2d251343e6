/** The reassembly buffer (`PacketReader`): a fixed buffer with a cursor `pos`, an end `len` and a
    three-valued state. Its whole observable content is one sequence, `Unconsumed()`; every method
    is specified as an operation on that sequence. */
module PacketReading {
  import opened Framing
  import opened Sequences

  datatype ReaderState = MissingLength | MissingBody(length: nat) | ShouldClear(bodyLength: nat)

  datatype PushResult = Pushed | BufferTooBig

  class PacketReader {
    const buffer: array<byte>
    var state: ReaderState
    /** Start of unconsumed data in `buffer`. */
    var pos: nat
    /** End of valid data in `buffer`. */
    var len: nat
    const maxPacketSize: nat

    /** The valid part of the buffer. */
    ghost function Bytes(): (s: seq<byte>)
      requires len <= buffer.Length
      reads this, buffer
      ensures |s| == len
    {
      buffer[..len]
    }

    ghost predicate Valid()
      reads this, buffer
    {
      && pos <= len <= buffer.Length
      && LEN_SIZE + maxPacketSize <= buffer.Length
      && match state
         case MissingLength => true
         case MissingBody(n) =>
           n <= maxPacketSize && pos + LEN_SIZE <= len && FromLe32(Bytes()[pos..pos + LEN_SIZE]) == n
         case ShouldClear(n) => pos + LEN_SIZE + n <= len
    }

    /** The bytes that are not part of a packet already returned. */
    ghost function Unconsumed(): (s: seq<byte>)
      requires Valid()
      reads this, buffer
      ensures |s| <= len
    {
      match state
      case ShouldClear(n) => Bytes()[pos + LEN_SIZE + n..]
      case _ => Bytes()[pos..]
    }

    function Padding(): nat
      requires LEN_SIZE + maxPacketSize <= buffer.Length
    {
      buffer.Length - LEN_SIZE - maxPacketSize
    }

    constructor (maxPacketSize: nat, padding: nat)
      ensures Valid() && fresh(buffer) && state == MissingLength
      ensures this.maxPacketSize == maxPacketSize && Padding() == padding
      ensures Unconsumed() == []
    {
      this.buffer := new byte[LEN_SIZE + maxPacketSize + padding](_ => 0);
      this.state := MissingLength;
      this.pos, this.len := 0, 0;
      this.maxPacketSize := maxPacketSize;
    }

    method DiscardConsumed()
      requires Valid()
      modifies this
      ensures Valid() && len == old(len)
      ensures !state.ShouldClear? && (!old(state).ShouldClear? ==> state == old(state))
      ensures Unconsumed() == old(Unconsumed()) && |Unconsumed()| == len - pos
    {
      if state.ShouldClear? {
        pos := pos + LEN_SIZE + state.bodyLength;
        state := MissingLength;
      }
    }

    method Compact()
      requires Valid()
      modifies this, buffer
      ensures Valid() && pos == 0 && len == |Unconsumed()|
      ensures !state.ShouldClear?
      ensures Unconsumed() == old(Unconsumed())
    {
      DiscardConsumed();
      if pos == 0 {
        return;
      }
      ghost var tail := Bytes()[pos..];
      assert state.MissingBody? ==> tail[..LEN_SIZE] == Bytes()[pos..pos + LEN_SIZE];
      var count := len - pos;
      // copy_within: an overlapping move, every byte read before any is written
      forall i | 0 <= i < count {
        buffer[i] := buffer[pos + i];
      }
      len := count;
      pos := 0;
      assert Bytes() == tail == Bytes()[0..];
      assert state.MissingBody? ==> Bytes()[0..LEN_SIZE] == tail[..LEN_SIZE];
    }

    lemma LengthField()
      requires Valid() && !state.ShouldClear? && LEN_SIZE <= len - pos
      ensures buffer[pos..pos + LEN_SIZE] == Bytes()[pos..pos + LEN_SIZE] == Unconsumed()[..LEN_SIZE]
    {
    }

    /** The whole body is there. */
    lemma BodyField(length: nat)
      requires Valid() && state == MissingBody(length) && length <= len - pos - LEN_SIZE
      ensures var start := pos + LEN_SIZE;
              && buffer[start..start + length] == Unconsumed()[LEN_SIZE..LEN_SIZE + length]
              && Bytes()[start + length..] == Unconsumed()[LEN_SIZE + length..]
    {
      var start := pos + LEN_SIZE;
      SliceOfTail(Bytes(), pos, LEN_SIZE, LEN_SIZE + length);
      var body, held := buffer[start..start + length], Bytes()[start..start + length];
      assert |body| == |held| == length;
      forall i | 0 <= i < length ensures body[i] == held[i] {
        assert body[i] == buffer[start + i] && held[i] == Bytes()[start + i];
      }
    }

    method TakeBody(length: nat) returns (r: ReadResult)
      requires Valid() && state == MissingBody(length)
      modifies this
      ensures Valid() && len == old(len)
      ensures r == NextPacket(old(Unconsumed()), maxPacketSize)
      ensures Unconsumed() == if r.Read? then Rest(old(Unconsumed()), r.packet) else old(Unconsumed())
    {
      LengthField();
      if (if len - pos >= LEN_SIZE then len - pos - LEN_SIZE else 0) >= length {
        BodyField(length);
        state := ShouldClear(length);
        var start := pos + LEN_SIZE;
        r := Read(buffer[start..start + length]);
      } else {
        r := NeedData;
      }
    }

    method NextState() returns (r: ReadResult)
      requires Valid()
      modifies this
      ensures Valid() && len == old(len)
      ensures r == NextPacket(old(Unconsumed()), maxPacketSize)
      ensures Unconsumed() == if r.Read? then Rest(old(Unconsumed()), r.packet) else old(Unconsumed())
      decreases match state case ShouldClear(_) => 2 case MissingLength => 1 case MissingBody(_) => 0
    {
      match state
      case MissingLength =>
        if len - pos >= LEN_SIZE {
          var length := FromLe32(buffer[pos..pos + LEN_SIZE]);
          LengthField();
          if length > maxPacketSize {
            r := PacketTooLarge(length);
          } else {
            state := MissingBody(length);
            r := NextState();
          }
        } else {
          r := NeedData;
        }
      case MissingBody(length) =>
        r := TakeBody(length);
      case ShouldClear(_) =>
        DiscardConsumed();
        r := NextState();
    }

    /** Fails exactly when the unconsumed bytes and the new ones exceed the buffer, and then
        loses nothing. */
    method PushData(data: seq<byte>) returns (r: PushResult)
      requires Valid()
      modifies this, buffer
      ensures Valid()
      ensures r == if |old(Unconsumed())| + |data| <= buffer.Length then Pushed else BufferTooBig
      ensures Unconsumed() == if r.Pushed? then old(Unconsumed()) + data else old(Unconsumed())
    {
      if len + |data| > buffer.Length {
        Compact();
        if len + |data| > buffer.Length {
          return BufferTooBig;
        }
      }
      Write(data);
      Commit(|data|);
      return Pushed;
    }

    /** Stores `data` behind the valid bytes: `copy_from_slice` in `push_data`, and what a
        transport does with the slice that `SpareCapacity` lends it. */
    method Write(data: seq<byte>)
      requires Valid() && len + |data| <= buffer.Length
      modifies buffer
      ensures Valid() && Unconsumed() == old(Unconsumed())
      ensures buffer[len..len + |data|] == data
    {
      forall i | 0 <= i < |data| {
        buffer[len + i] := data[i];
      }
      assert Bytes() == old(Bytes());
    }

    /** Lends out the unused tail `buffer[start..]`. After `NeedData` it is never empty: it holds
        at least one byte more than the padding. */
    method SpareCapacity() returns (start: nat)
      requires Valid()
      modifies this, buffer
      ensures Valid() && start == len == |Unconsumed()| <= buffer.Length
      ensures Unconsumed() == old(Unconsumed())
      ensures NextPacket(Unconsumed(), maxPacketSize) == NeedData ==> buffer.Length - start > Padding()
    {
      Compact();
      start := len;
    }

    method Commit(n: nat)
      requires Valid() && len + n <= buffer.Length
      modifies this
      ensures Valid() && len == old(len) + n
      ensures Unconsumed() == old(Unconsumed()) + old(buffer[len..len + n])
    {
      ghost var before, added := Bytes(), buffer[len..len + n];
      ghost var used := if state.ShouldClear? then pos + LEN_SIZE + state.bodyLength else pos;
      len := len + n;
      assert Bytes() == before + added;
      TailOfAppend(before, added, used);
      assert state.MissingBody? ==> Bytes()[pos..pos + LEN_SIZE] == before[pos..pos + LEN_SIZE];
    }

    /** Consumption only moves the cursor: no byte of the buffer changes. */
    method GetPacket() returns (r: ReadResult)
      requires Valid()
      modifies this
      ensures Valid() && len == old(len)
      ensures r == NextPacket(old(Unconsumed()), maxPacketSize)
      ensures Unconsumed() == if r.Read? then Rest(old(Unconsumed()), r.packet) else old(Unconsumed())
      ensures Answers(old(Unconsumed()), maxPacketSize, r)
      ensures r.Read? ==> old(Unconsumed()) == old(Unconsumed())[..4] + r.packet + Unconsumed()
    {
      ghost var u := Unconsumed();
      r := NextState();
      AnswerIsByTheBytes(u, maxPacketSize, r);
    }

    method DrainUnparsed() returns (data: seq<byte>)
      requires Valid()
      modifies this
      ensures Valid() && state == MissingLength && pos == len == 0
      ensures data == old(Unconsumed())
      ensures Unconsumed() == []
    {
      DiscardConsumed();
      data := buffer[pos..len];
      pos, len := 0, 0;
      state := MissingLength;
    }
  }
}
