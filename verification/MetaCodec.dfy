/** Custom metadata values and their wire form: a builder appends nodes to a store and refers to
    earlier nodes by offset, and a reader follows the offsets back. */
module MetaCodec {
  import opened Wrappers

  // ---- Values ----

  /** The bit pattern of an `f64`. */
  type Float64 = bv64

  const POSITIVE_ZERO: Float64 := 0
  const NEGATIVE_ZERO: Float64 := 0x8000_0000_0000_0000

  newtype Int64 = x: int | -0x8000_0000_0000_0000 <= x < 0x8000_0000_0000_0000

  datatype MetaValue =
    | String(text: string)
    | Float(bits: Float64)
    | Int(number: Int64)
    | List(items: seq<MetaValue>)
    | KvPair(key: string, value: MetaValue)

  // ---- The store ----

  type Offset = nat

  datatype Tag = NoTag | StringTag | FloatTag | IntTag | ListTag | KvPairTag | OtherTag(number: nat)

  /** The bit pattern of an `f32`. */
  type Float32 = bv32

  /** Microseconds */
  type Time = bv64

  datatype SourceType = NoSource | SingleSource | QueueSource | OtherSource(number: nat)

  /** What a store holds. A slot is missing where a table leaves the field out. */
  datatype Node =
    | Text(text: string)
    | Vector(elements: seq<Offset>)
    | MetaString(value: Option<Offset>)
    | MetaFloat(bits: Option<Float64>)
    | MetaInt(number: Option<Int64>)
    | MetaList(items: Option<Offset>)
    | Wrapped(valueType: Tag, union: Option<Offset>)
    | KeyValue(key: Offset, valueType: Tag, union: Option<Offset>)
    | RequestHeader(key: Offset, headerValue: Offset)
    | VideoMetadata(subtitleUrl: Option<Offset>)
    | AudioMetadata(artist: Option<Offset>, album: Option<Offset>)
    | MediaItem(fields: ItemFields)
    | QueueItem(mediaItem: Offset, playbackDuration: Option<Time>)
    | Queue(queued: Offset, startIndex: Option<bv8>, autoplay: bool)
    | Load(sourceType: SourceType, source: Option<Offset>)
    | LoadPacket(payload: Offset)

  datatype ItemFields = ItemFields(
    container: Offset, sourceUrl: Offset, startTime: Option<Time>, volume: Option<Float32>, speed: Option<Float32>,
    headers: Option<Offset>, title: Option<Offset>, thumbnailUrl: Option<Offset>, metadataType: nat,
    metadata: Option<Offset>, extra: Option<Offset>)

  type Store = seq<Node>

  /** Equality of `f64`, by which the builder leaves a field out, does not see the sign of zero. */
  function FloatSlot(bits: Float64): Option<Float64> {
    if bits == POSITIVE_ZERO || bits == NEGATIVE_ZERO then None else Some(bits)
  }

  function IntSlot(number: Int64): Option<Int64> {
    if number == 0 then None else Some(number)
  }

  // ---- Reading ----

  /** A reference that may be followed from the node at `from`: only to an earlier node. */
  function Before(ref: Option<Offset>, from: Offset): (r: Option<Offset>)
    ensures r.Some? ==> r.value < from
  {
    if ref.Some? && ref.value < from then ref else None
  }

  function NodeAt(store: Store, at: Option<Offset>): Option<Node> {
    if at.Some? && at.value < |store| then Some(store[at.value]) else None
  }

  function TextAt(store: Store, at: Option<Offset>): string {
    var node := NodeAt(store, at);
    if node.Some? && node.value.Text? then node.value.text else ""
  }

  function VectorAt(store: Store, at: Option<Offset>): seq<Offset> {
    var node := NodeAt(store, at);
    if node.Some? && node.value.Vector? then node.value.elements else []
  }

  /** `read_meta_union!`: a missing value or an unknown tag reads as a default. */
  function ReadUnion(store: Store, tag: Tag, at: Option<Offset>): MetaValue
    decreases if at.Some? then at.value + 1 else 0
  {
    var node := NodeAt(store, at);
    match tag
    case StringTag =>
      String(if node.Some? && node.value.MetaString? then TextAt(store, Before(node.value.value, at.value)) else "")
    case FloatTag =>
      var stored := node.Some? && node.value.MetaFloat? && node.value.bits.Some?;
      Float(if stored then node.value.bits.value else POSITIVE_ZERO)
    case IntTag =>
      Int(if node.Some? && node.value.MetaInt? && node.value.number.Some? then node.value.number.value else 0)
    case ListTag =>
      if node.Some? && node.value.MetaList? && Before(node.value.items, at.value).Some? then
        ReadList(store, node.value.items.value)
      else
        List([])
    case KvPairTag =>
      if node.Some? && node.value.KeyValue? then
        KvPair(TextAt(store, Before(Some(node.value.key), at.value)),
               ReadUnion(store, node.value.valueType, Before(node.value.union, at.value)))
      else
        List([])
    case _ => List([])
  }

  /** The wrapped values that a vector refers to. */
  function ReadList(store: Store, vector: Offset): MetaValue
    decreases vector + 1
  {
    var elements := VectorAt(store, Some(vector));
    List(seq(|elements|, i requires 0 <= i < |elements| => ReadWrapped(store, Before(Some(elements[i]), vector))))
  }

  function ReadWrapped(store: Store, at: Option<Offset>): MetaValue
    decreases if at.Some? then at.value + 1 else 0
  {
    var node := NodeAt(store, at);
    if node.Some? && node.value.Wrapped? then
      ReadUnion(store, node.value.valueType, Before(node.value.union, at.value))
    else
      List([])
  }

  // ---- Building ----

  datatype Placed = Placed(store: Store, tag: Tag, at: Offset)
  datatype PlacedAll = PlacedAll(store: Store, offsets: seq<Offset>)

  /** `build_meta_value`: the nodes a value adds to a store, innermost first. */
  function Put(store: Store, v: MetaValue): Placed
    decreases v
  {
    match v
    case String(s) =>
      Placed(store + [Text(s)] + [MetaString(Some(|store|))], StringTag, |store| + 1)
    case Float(bits) =>
      Placed(store + [MetaFloat(FloatSlot(bits))], FloatTag, |store|)
    case Int(number) =>
      Placed(store + [MetaInt(IntSlot(number))], IntTag, |store|)
    case List(items) =>
      var all := PutItems(store, items, |items|);
      var n := |all.store|;
      Placed(all.store + [Vector(all.offsets)] + [MetaList(Some(n))], ListTag, n + 1)
    case KvPair(key, value) =>
      var p := Put(store, value);
      var n := |p.store|;
      Placed(p.store + [Text(key)] + [KeyValue(n, p.tag, Some(p.at))], KvPairTag, n + 1)
  }

  /** The first `n` items, each in a wrapper. */
  function PutItems(store: Store, items: seq<MetaValue>, n: nat): PlacedAll
    requires n <= |items|
    decreases items, n
  {
    if n == 0 then
      PlacedAll(store, [])
    else
      var before := PutItems(store, items, n - 1);
      var p := Put(before.store, items[n - 1]);
      PlacedAll(p.store + [Wrapped(p.tag, Some(p.at))], before.offsets + [|p.store|])
  }

  // ---- Appending ----

  lemma {:induction false} PutAppends(store: Store, v: MetaValue)
    ensures var p := Put(store, v); store <= p.store && p.at < |p.store|
    decreases v
  {
    match v
    case List(items) => PutItemsAppends(store, items, |items|);
    case KvPair(key, value) => PutAppends(store, value);
    case _ =>
  }

  lemma {:induction false} PutItemsAppends(store: Store, items: seq<MetaValue>, n: nat)
    requires n <= |items|
    ensures var all := PutItems(store, items, n);
            store <= all.store && |all.offsets| == n && forall i :: 0 <= i < n ==> all.offsets[i] < |all.store|
    decreases items, n
  {
    if n == 0 {
    } else {
      PutItemsAppends(store, items, n - 1);
      PutAppends(PutItems(store, items, n - 1).store, items[n - 1]);
    }
  }

  /** What an offset reads as never changes when the store grows. */
  lemma {:induction false} ReadIsStable(store: Store, later: Store, tag: Tag, at: Option<Offset>)
    requires store <= later && (at.Some? ==> at.value < |store|)
    ensures ReadUnion(later, tag, at) == ReadUnion(store, tag, at)
    decreases if at.Some? then at.value + 1 else 0
  {
    if at.Some? {
      var node := store[at.value];
      if tag == ListTag && node.MetaList? && Before(node.items, at.value).Some? {
        ListIsStable(store, later, node.items.value);
      } else if tag == KvPairTag && node.KeyValue? {
        ReadIsStable(store, later, node.valueType, Before(node.union, at.value));
      }
    }
  }

  lemma {:induction false} ListIsStable(store: Store, later: Store, vector: Offset)
    requires store <= later && vector < |store|
    ensures ReadList(later, vector) == ReadList(store, vector)
    decreases vector + 1
  {
    var elements := VectorAt(store, Some(vector));
    forall i | 0 <= i < |elements|
      ensures ReadWrapped(later, Before(Some(elements[i]), vector)) ==
              ReadWrapped(store, Before(Some(elements[i]), vector))
    {
      WrappedIsStable(store, later, Before(Some(elements[i]), vector));
    }
  }

  lemma {:induction false} WrappedIsStable(store: Store, later: Store, at: Option<Offset>)
    requires store <= later && (at.Some? ==> at.value < |store|)
    ensures ReadWrapped(later, at) == ReadWrapped(store, at)
    decreases if at.Some? then at.value + 1 else 0
  {
    if at.Some? && store[at.value].Wrapped? {
      ReadIsStable(store, later, store[at.value].valueType, Before(store[at.value].union, at.value));
    }
  }

  // ---- Round trip ----

  /** The value with every negative zero made positive. */
  function Canon(v: MetaValue): MetaValue {
    match v
    case Float(bits) => Float(if bits == NEGATIVE_ZERO then POSITIVE_ZERO else bits)
    case List(items) => List(seq(|items|, i requires 0 <= i < |items| => Canon(items[i])))
    case KvPair(key, value) => KvPair(key, Canon(value))
    case _ => v
  }

  predicate HasNegativeZero(v: MetaValue) {
    match v
    case Float(bits) => bits == NEGATIVE_ZERO
    case List(items) => exists i :: 0 <= i < |items| && HasNegativeZero(items[i])
    case KvPair(key, value) => HasNegativeZero(value)
    case _ => false
  }

  /** The same value, but for the signs of zeroes. */
  predicate UpToZero(v: MetaValue, w: MetaValue) {
    match v
    case Float(a) => w.Float? && (w.bits == a || (a == NEGATIVE_ZERO && w.bits == POSITIVE_ZERO))
    case List(items) =>
      w.List? && |w.items| == |items| && forall i :: 0 <= i < |items| ==> UpToZero(items[i], w.items[i])
    case KvPair(key, value) => w.KvPair? && w.key == key && UpToZero(value, w.value)
    case _ => w == v
  }

  lemma {:induction false} CanonIsUpToZero(v: MetaValue)
    ensures UpToZero(v, Canon(v)) && !HasNegativeZero(Canon(v))
  {
    match v
    case List(items) =>
      forall i | 0 <= i < |items| ensures UpToZero(items[i], Canon(items[i])) && !HasNegativeZero(Canon(items[i])) {
        CanonIsUpToZero(items[i]);
      }
    case KvPair(key, value) => CanonIsUpToZero(value);
    case _ =>
  }

  /** What reads back differs from what was built in nothing but the signs of zeroes, which are positive. */
  lemma ReadsBackUpToZero(store: Store, v: MetaValue, more: Store)
    ensures var p := Put(store, v);
            var read := ReadUnion(p.store + more, p.tag, Some(p.at));
            UpToZero(v, read) && !HasNegativeZero(read)
  {
    OffsetsSurviveAppends(store, v, more);
    CanonIsUpToZero(v);
  }

  /** A value built into any store reads back, up to the sign of zero; zeroes that were left out are read
      as zeroes. */
  lemma {:induction false} RoundTrip(store: Store, v: MetaValue)
    ensures var p := Put(store, v); ReadUnion(p.store, p.tag, Some(p.at)) == Canon(v)
    decreases v
  {
    match v
    case List(items) =>
      ListRoundTrip(store, items);
    case KvPair(key, value) =>
      var q := Put(store, value);
      var p := Put(store, v);
      PutAppends(store, value);
      RoundTrip(store, value);
      ReadIsStable(q.store, p.store, q.tag, Some(q.at));
    case _ =>
  }

  /** The first `n` offsets hold the first `n` items. */
  ghost predicate HoldsItems(store: Store, offsets: seq<Offset>, items: seq<MetaValue>, n: nat) {
    && n <= |offsets| && n <= |items|
    && forall i :: 0 <= i < n ==> offsets[i] < |store| && ReadWrapped(store, Some(offsets[i])) == Canon(items[i])
  }

  lemma HoldsItemsLater(store: Store, later: Store, offsets: seq<Offset>, items: seq<MetaValue>, n: nat)
    requires store <= later && HoldsItems(store, offsets, items, n)
    ensures HoldsItems(later, offsets, items, n)
  {
    forall i | 0 <= i < n ensures ReadWrapped(later, Some(offsets[i])) == Canon(items[i]) {
      WrappedIsStable(store, later, Some(offsets[i]));
    }
  }

  lemma WrappedRoundTrip(store: Store, tag: Tag, at: Offset)
    requires at < |store|
    ensures ReadWrapped(store + [Wrapped(tag, Some(at))], Some(|store|)) == ReadUnion(store, tag, Some(at))
  {
    ReadIsStable(store, store + [Wrapped(tag, Some(at))], tag, Some(at));
  }

  lemma {:induction false} ListRoundTrip(store: Store, items: seq<MetaValue>)
    ensures var p := Put(store, List(items)); ReadUnion(p.store, p.tag, Some(p.at)) == Canon(List(items))
    decreases items, |items| + 1
  {
    var all := PutItems(store, items, |items|);
    PutItemsAppends(store, items, |items|);
    ItemsRoundTrip(store, items, |items|);
    VectorRoundTrip(all, items);
  }

  lemma VectorRoundTrip(all: PlacedAll, items: seq<MetaValue>)
    requires |all.offsets| == |items| && HoldsItems(all.store, all.offsets, items, |items|)
    ensures var n := |all.store|;
            ReadUnion(all.store + [Vector(all.offsets)] + [MetaList(Some(n))], ListTag, Some(n + 1)) ==
              Canon(List(items))
  {
    var n := |all.store|;
    var later := all.store + [Vector(all.offsets)] + [MetaList(Some(n))];
    HoldsItemsLater(all.store, later, all.offsets, items, |items|);
    assert VectorAt(later, Some(n)) == all.offsets;
    assert ReadList(later, n).items == Canon(List(items)).items;
  }

  lemma {:induction false} ItemsRoundTrip(store: Store, items: seq<MetaValue>, n: nat)
    requires n <= |items|
    ensures var all := PutItems(store, items, n); |all.offsets| == n && HoldsItems(all.store, all.offsets, items, n)
    decreases items, n
  {
    if n == 0 {
    } else {
      PutItemsAppends(store, items, n - 1);
      ItemsRoundTrip(store, items, n - 1);
      OneMoreItem(PutItems(store, items, n - 1), items, n - 1);
    }
  }

  lemma {:induction false} OneMoreItem(before: PlacedAll, items: seq<MetaValue>, n: nat)
    requires n < |items| && |before.offsets| == n && HoldsItems(before.store, before.offsets, items, n)
    ensures var p := Put(before.store, items[n]);
            HoldsItems(p.store + [Wrapped(p.tag, Some(p.at))], before.offsets + [|p.store|], items, n + 1)
    decreases items, 0
  {
    PutAppends(before.store, items[n]);
    RoundTrip(before.store, items[n]);
    AddItem(before, Put(before.store, items[n]), items, n);
  }

  lemma AddItem(before: PlacedAll, p: Placed, items: seq<MetaValue>, n: nat)
    requires n < |items| && |before.offsets| == n && HoldsItems(before.store, before.offsets, items, n)
    requires before.store <= p.store && p.at < |p.store|
    requires ReadUnion(p.store, p.tag, Some(p.at)) == Canon(items[n])
    ensures HoldsItems(p.store + [Wrapped(p.tag, Some(p.at))], before.offsets + [|p.store|], items, n + 1)
  {
    WrappedRoundTrip(p.store, p.tag, p.at);
    HoldsItemsLater(before.store, p.store + [Wrapped(p.tag, Some(p.at))], before.offsets, items, n);
  }

  /** A value is its own canonical form exactly if it holds no negative zero. */
  lemma {:induction false} CanonIsIdentity(v: MetaValue)
    ensures Canon(v) == v <==> !HasNegativeZero(v)
  {
    match v
    case List(items) =>
      forall i | 0 <= i < |items|
        ensures Canon(items[i]) == items[i] <==> !HasNegativeZero(items[i])
      {
        CanonIsIdentity(items[i]);
      }
      assert Canon(v) == v ==> forall i :: 0 <= i < |items| ==> Canon(v).items[i] == items[i];
      if !HasNegativeZero(v) {
        assert Canon(v).items == items;
      }
    case KvPair(key, value) => CanonIsIdentity(value);
    case _ =>
  }

  /** The original value comes back, bit by bit, exactly if it holds no negative zero. */
  lemma RoundTripIsExactWithoutNegativeZero(store: Store, v: MetaValue)
    ensures var p := Put(store, v);
            ReadUnion(p.store, p.tag, Some(p.at)) == v <==> !HasNegativeZero(v)
  {
    RoundTrip(store, v);
    CanonIsIdentity(v);
  }

  /** ... and it still does after any further appends. */
  lemma OffsetsSurviveAppends(store: Store, v: MetaValue, more: Store)
    ensures var p := Put(store, v); ReadUnion(p.store + more, p.tag, Some(p.at)) == Canon(v)
  {
    var p := Put(store, v);
    PutAppends(store, v);
    RoundTrip(store, v);
    ReadIsStable(p.store, p.store + more, p.tag, Some(p.at));
  }

  /** A negative zero comes back positive. */
  lemma NegativeZeroIsLost()
    ensures var p := Put([], Float(NEGATIVE_ZERO));
            ReadUnion(p.store, p.tag, Some(p.at)) == Float(POSITIVE_ZERO) != Float(NEGATIVE_ZERO)
  {
    RoundTrip([], Float(NEGATIVE_ZERO));
  }
}
