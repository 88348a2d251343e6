/** Companion resource responses: their byte format, its exact inverse, and the largest payload
    that still travels through the packet framing in one piece. */
module Companion {
  import opened Framing
  import opened ReaderRuns

  const V4_MAX_PACKET_SIZE := 512 * 1024
  const OPCODE_SIZE := 1
  const OPCODE_RESOURCE: byte := 21
  /** `size_of::<u32>() + size_of::<u8>() * 3` */
  const MAX_OVERHEAD := 4 + 1 * 3
  const MAX_RESOURCE_READ_SIZE := V4_MAX_PACKET_SIZE - MAX_OVERHEAD - OPCODE_SIZE
  const SUCCESS_TAG: byte := 1

  datatype ParseError = MissingData | InvalidEnumVariant(tag: byte)

  datatype Result<T> = Ok(value: T) | Err(error: ParseError)

  datatype GetResourceResult = NotFound | Success(data: seq<byte>)

  type RequestId = n: nat | n < U32_MODULUS

  datatype ResourceResponse = ResourceResponse(requestId: RequestId, part: byte, totalParts: byte,
                                               result: GetResourceResult)

  function ParseResult(buf: seq<byte>): Result<GetResourceResult> {
    if buf == [] then Err(MissingData)
    else if buf[0] == 0 then Ok(NotFound)
    else if buf[0] == 1 then Ok(Success(buf[1..]))
    else Err(InvalidEnumVariant(buf[0]))
  }

  function SerializeResult(r: GetResourceResult): seq<byte> {
    match r
    case NotFound => [0]
    case Success(data) => [SUCCESS_TAG] + data
  }

  function ParseResponse(buf: seq<byte>): Result<ResourceResponse> {
    if |buf| < MAX_OVERHEAD then Err(MissingData)
    else
      U32Bound(buf[..4]);
      match ParseResult(buf[6..])
      case Err(e) => Err(e)
      case Ok(result) => Ok(ResourceResponse(FromLe32(buf[..4]), buf[4], buf[5], result))
  }

  lemma U32Bound(s: seq<byte>)
    requires |s| == LEN_SIZE
    ensures FromLe32(s) < U32_MODULUS
  {
    LeInverse(s);
    U32Pow();
  }

  function SerializeResponse(r: ResourceResponse): seq<byte> {
    ToLe32(r.requestId) + [r.part] + [r.totalParts] + SerializeResult(r.result)
  }

  function HeaderSuccess(requestId: RequestId, part: byte, totalParts: byte): seq<byte> {
    var id := ToLe32(requestId);
    [id[0], id[1], id[2], id[3], part, totalParts, SUCCESS_TAG]
  }

  /** Every response parses back to itself. */
  lemma ResponseRoundTrip(r: ResourceResponse)
    ensures ParseResponse(SerializeResponse(r)) == Ok(r)
    ensures |SerializeResponse(r)| == MAX_OVERHEAD + if r.result.Success? then |r.result.data| else 0
  {
    var buf := SerializeResponse(r);
    assert buf[..4] == ToLe32(r.requestId);
    assert buf[6..] == SerializeResult(r.result);
    U32Pow();
    LeRoundTrip(r.requestId, LEN_SIZE);
    assert r.result.Success? ==> SerializeResult(r.result)[1..] == r.result.data;
  }

  /** The other direction: what was parsed serializes back to the same bytes exactly when it is not
      a `NotFound` followed by trailing bytes, which the parser ignores. */
  lemma ParsedResponseSerializesBack(buf: seq<byte>)
    requires ParseResponse(buf).Ok?
    ensures SerializeResponse(ParseResponse(buf).value) == buf <==> buf[6] != 0 || |buf| == MAX_OVERHEAD
  {
    var r := ParseResponse(buf).value;
    LeInverse(buf[..4]);
    assert buf == buf[..4] + [buf[4]] + [buf[5]] + buf[6..];
    if buf[6] == 0 {
      ResponseRoundTrip(r);
    } else {
      assert buf[6..] == SerializeResult(r.result);
    }
  }

  /** The serialized response by its bytes: the request, the lowest byte first, part and number of parts, a tag
      and the data. */
  lemma ResponseByTheBytes(r: ResourceResponse)
    ensures var buf := SerializeResponse(r);
            && |buf| >= 7 && AnnouncedLength(buf) == r.requestId && buf[4] == r.part && buf[5] == r.totalParts
            && buf[6] == (if r.result.Success? then 1 else 0)
            && buf[7..] == if r.result.Success? then r.result.data else []
  {
    ResponseRoundTrip(r);
    var buf := SerializeResponse(r);
    LengthIsLittleEndian(buf);
    assert buf[..4] == ToLe32(r.requestId) && buf[6..] == SerializeResult(r.result);
    assert buf[7..] == buf[6..][1..];
  }

  /** Seven bytes and a known tag are all that the parser wants. */
  lemma ParseByTheBytes(buf: seq<byte>)
    ensures ParseResponse(buf) == Err(MissingData) <==> |buf| < 7
    ensures forall tag :: ParseResponse(buf) == Err(InvalidEnumVariant(tag)) <==>
                            |buf| >= 7 && tag == buf[6] && tag != 0 && tag != 1
  {
  }

  /** The streaming form: the fixed header followed by the data is the serialized success. */
  lemma HeaderThenDataIsSerialize(requestId: RequestId, part: byte, totalParts: byte, data: seq<byte>)
    ensures HeaderSuccess(requestId, part, totalParts) + data
         == SerializeResponse(ResourceResponse(requestId, part, totalParts, Success(data)))
    ensures |HeaderSuccess(requestId, part, totalParts)| == MAX_OVERHEAD
  {
    var id := ToLe32(requestId);
    assert id == [id[0], id[1], id[2], id[3]];
  }

  /** The body of the packet that carries a response. */
  function PacketBody(r: ResourceResponse): seq<byte> {
    [OPCODE_RESOURCE] + SerializeResponse(r)
  }

  /** The bound is tight: a success travels in one packet exactly when its data respects it. */
  lemma ReadSizeIsTight(r: ResourceResponse)
    requires r.result.Success?
    ensures |PacketBody(r)| <= V4_MAX_PACKET_SIZE <==> |r.result.data| <= MAX_RESOURCE_READ_SIZE
    ensures NextPacket(Frame(PacketBody(r)), V4_MAX_PACKET_SIZE) == Read(PacketBody(r)) <==>
            |r.result.data| <= MAX_RESOURCE_READ_SIZE
  {
    ResponseRoundTrip(r);
    var body := PacketBody(r);
    assert |body| == OPCODE_SIZE + MAX_OVERHEAD + |r.result.data|;
    if |r.result.data| <= MAX_RESOURCE_READ_SIZE {
      FramedIsRead(body, [], V4_MAX_PACKET_SIZE);
      assert Frame(body) + [] == Frame(body);
    } else if NextPacket(Frame(body), V4_MAX_PACKET_SIZE) == Read(body) {
      ReadIsFramed(Frame(body), V4_MAX_PACKET_SIZE, body);
    }
  }

  /** A response without data, or with at most the permitted amount, framed and fed to a packet
      reader in any way, comes out and parses back to itself. */
  lemma ResponseSurvivesTheReader(r: ResourceResponse, ops: seq<Op>, capacity: nat)
    requires r.result.Success? ==> |r.result.data| <= MAX_RESOURCE_READ_SIZE
    requires NoDrain(ops)
    requires var o := Run([], ops, capacity, V4_MAX_PACKET_SIZE);
             Input(o.events) == Frame(PacketBody(r)) && !NextPacket(o.unconsumed, V4_MAX_PACKET_SIZE).Read?
    ensures var packets := Packets(Run([], ops, capacity, V4_MAX_PACKET_SIZE).events);
            |packets| == 1 && |packets[0]| > 0
            && packets[0][0] == OPCODE_RESOURCE && ParseResponse(packets[0][1..]) == Ok(r)
  {
    ResponseRoundTrip(r);
    var body := PacketBody(r);
    assert |body| == OPCODE_SIZE + |SerializeResponse(r)|;
    FramesCons(body, []);
    assert [body] + [] == [body] && Frame(body) + [] == Frame(body);
    FramedBodiesReadBack([body], ops, capacity, V4_MAX_PACKET_SIZE);
    assert body[1..] == SerializeResponse(r);
  }
}
