/** Relaying a `Load` message to the other senders: every item is rebuilt in a new message without its
    request headers and its typed metadata. */
module Relay {
  import opened Wrappers
  import opened MetaCodec
  import opened ExtraMetadata

  // ---- What a message says ----

  datatype Item = Item(
    container: string, sourceUrl: string, startTime: Option<Time>, volume: Option<Float32>, speed: Option<Float32>,
    headers: Option<Offset>, title: Option<string>, thumbnailUrl: Option<string>, metadataType: nat,
    metadata: Option<Offset>, extra: Option<Extra>)

  datatype Queued = Queued(item: Item, playbackDuration: Option<Time>)

  datatype Source =
    | SingleItem(item: Item)
    | ItemQueue(items: seq<Queued>, startIndex: Option<bv8>, autoplay: bool)

  const NO_METADATA := 0

  const BLANK := Item("", "", None, None, None, None, None, None, NO_METADATA, None, None)

  function OptionalText(store: Store, at: Option<Offset>): Option<string> {
    if at.Some? then Some(TextAt(store, at)) else None
  }

  function ItemAt(store: Store, at: Option<Offset>): Item {
    var node := NodeAt(store, at);
    if node.Some? && node.value.MediaItem? then ItemOf(store, node.value.fields, at.value) else BLANK
  }

  function ItemOf(store: Store, f: ItemFields, at: Offset): Item {
    Item(TextAt(store, Before(Some(f.container), at)), TextAt(store, Before(Some(f.sourceUrl), at)),
         f.startTime, f.volume, f.speed, f.headers,
         OptionalText(store, Before(f.title, at)), OptionalText(store, Before(f.thumbnailUrl, at)),
         f.metadataType, f.metadata, ReadExtra(store, f.extra, at))
  }

  function QueuedAt(store: Store, at: Option<Offset>): Queued {
    var node := NodeAt(store, at);
    if node.Some? && node.value.QueueItem? then
      Queued(ItemAt(store, Before(Some(node.value.mediaItem), at.value)), node.value.playbackDuration)
    else
      Queued(BLANK, None)
  }

  function QueueAt(store: Store, at: Option<Offset>): Option<Source> {
    var node := NodeAt(store, at);
    if node.Some? && node.value.Queue? then
      var vector := Before(Some(node.value.queued), at.value);
      Some(ItemQueue(ElementsAt(store, VectorAt(store, vector), vector), node.value.startIndex, node.value.autoplay))
    else
      None
  }

  function ElementsAt(store: Store, elements: seq<Offset>, vector: Option<Offset>): seq<Queued> {
    seq(|elements|, i requires 0 <= i < |elements| => ElementAt(store, elements[i], vector))
  }

  function ElementAt(store: Store, element: Offset, vector: Option<Offset>): Queued {
    QueuedAt(store, if vector.Some? then Before(Some(element), vector.value) else None)
  }

  /** The source of a `Load` table, or nothing where the program finds none it knows. */
  function SourceAt(store: Store, at: Option<Offset>): Option<Source> {
    var node := NodeAt(store, at);
    if node.None? || !node.value.Load? then None
    else
      var source := Before(node.value.source, at.value);
      match node.value.sourceType
      case SingleSource =>
        var item := NodeAt(store, source);
        if item.Some? && item.value.MediaItem? then Some(SingleItem(ItemAt(store, source))) else None
      case QueueSource => QueueAt(store, source)
      case _ => None
  }

  // ---- What the relay promises ----

  function StripExtra(extra: Option<Extra>): Option<Extra> {
    if extra.None? || extra.value == map[] then None else Some(CanonExtra(extra.value))
  }

  function StripItem(item: Item): Item {
    item.(headers := None, metadataType := NO_METADATA, metadata := None, extra := StripExtra(item.extra))
  }

  function StripQueued(q: Queued): Queued {
    q.(item := StripItem(q.item))
  }

  function Strip(source: Source): Source {
    match source
    case SingleItem(item) => SingleItem(StripItem(item))
    case ItemQueue(items, startIndex, autoplay) =>
      ItemQueue(StripAll(items), startIndex, autoplay)
  }

  function StripAll(items: seq<Queued>): seq<Queued> {
    seq(|items|, i requires 0 <= i < |items| => StripQueued(items[i]))
  }

  /** Stripping twice is stripping once. */
  lemma StripIsIdempotent(source: Source)
    ensures Strip(Strip(source)) == Strip(source)
  {
    match source
    case SingleItem(item) => StripItemIsIdempotent(item);
    case ItemQueue(items, startIndex, autoplay) =>
      forall i | 0 <= i < |items|
        ensures StripQueued(StripQueued(items[i])) == StripQueued(items[i])
      {
        StripItemIsIdempotent(items[i].item);
      }
      assert StripAll(StripAll(items)) == StripAll(items);
  }

  lemma StripItemIsIdempotent(item: Item)
    ensures StripItem(StripItem(item)) == StripItem(item)
  {
    if item.extra.Some? && item.extra.value != map[] {
      var extra := item.extra.value;
      assert extra.Keys != {};
      assert CanonExtra(extra).Keys == extra.Keys;
      forall k | k in extra ensures Canon(Canon(extra[k])) == Canon(extra[k]) {
        CanonIsIdempotent(extra[k]);
      }
      assert CanonExtra(CanonExtra(extra)) == CanonExtra(extra);
    }
  }

  /** The item that is relayed differs in nothing but what is meant to be left out: its extra metadata is
      the same, or both have none, exactly if it holds no negative zero. */
  lemma RelayedExtraIsTheSame(item: Item)
    ensures var kept := if item.extra == Some(map[]) then None else item.extra;
            StripItem(item).extra == kept <==>
            kept.None? || forall k :: k in kept.value ==> !HasNegativeZero(kept.value[k])
  {
    if item.extra.Some? {
      CanonExtraIsIdentity(item.extra.value);
    }
  }

  // ---- Stability ----

  lemma {:induction false} EntriesAreStable(store: Store, later: Store, vector: Offset, entries: seq<Offset>, n: nat)
    requires store <= later && vector < |store| && n <= |entries|
    ensures ReadEntries(later, vector, entries, n) == ReadEntries(store, vector, entries, n)
  {
    if n == 0 {
    } else {
      EntriesAreStable(store, later, vector, entries, n - 1);
      ReadIsStable(store, later, KvPairTag, Before(Some(entries[n - 1]), vector));
    }
  }

  lemma ExtraIsStable(store: Store, later: Store, extra: Option<Offset>, from: Offset)
    requires store <= later && from < |store|
    ensures ReadExtra(later, extra, from) == ReadExtra(store, extra, from)
  {
    var vector := Before(extra, from);
    if vector.Some? {
      EntriesAreStable(store, later, vector.value, VectorAt(store, vector), |VectorAt(store, vector)|);
    }
  }

  lemma ItemIsStable(store: Store, later: Store, at: Option<Offset>)
    requires store <= later && (at.Some? ==> at.value < |store|)
    ensures ItemAt(later, at) == ItemAt(store, at)
  {
    if at.Some? && store[at.value].MediaItem? {
      ExtraIsStable(store, later, store[at.value].fields.extra, at.value);
    }
  }

  lemma QueuedIsStable(store: Store, later: Store, at: Option<Offset>)
    requires store <= later && (at.Some? ==> at.value < |store|)
    ensures QueuedAt(later, at) == QueuedAt(store, at)
  {
    if at.Some? && store[at.value].QueueItem? {
      ItemIsStable(store, later, Before(Some(store[at.value].mediaItem), at.value));
    }
  }

  lemma QueueIsStable(store: Store, later: Store, at: Option<Offset>)
    requires store <= later && (at.Some? ==> at.value < |store|)
    ensures QueueAt(later, at) == QueueAt(store, at)
  {
    if at.Some? && store[at.value].Queue? {
      var vector := Before(Some(store[at.value].queued), at.value);
      var elements := VectorAt(store, vector);
      forall i | 0 <= i < |elements|
        ensures ElementAt(later, elements[i], vector) == ElementAt(store, elements[i], vector)
      {
        QueuedIsStable(store, later, if vector.Some? then Before(Some(elements[i]), vector.value) else None);
      }
      assert ElementsAt(later, elements, vector) == ElementsAt(store, elements, vector);
    }
  }

  // ---- Well-formed messages without secrets ----

  /** What the FlatBuffers verifier checks of the references in a queue and in the message that loads it. */
  predicate Typed(store: Store, i: nat)
    requires i < |store|
  {
    match store[i]
    case QueueItem(item, _) => item < i && store[item].MediaItem?
    case Queue(queued, _, _) =>
      && queued < i && store[queued].Vector?
      && forall e :: e in store[queued].elements ==> e < queued && store[e].QueueItem?
    case Load(sourceType, source) =>
      && source.Some? && source.value < i
      && (sourceType == SingleSource ==> store[source.value].MediaItem?)
      && (sourceType == QueueSource ==> store[source.value].Queue?)
    case _ => true
  }

  predicate Verified(store: Store) {
    forall i: nat :: i < |store| ==> Typed(store, i)
  }

  /** A verified message has a source exactly if its type is one of the two that the relay knows. */
  lemma SourceIsKnown(store: Store, at: Offset)
    requires Verified(store) && at < |store| && store[at].Load?
    ensures SourceAt(store, Some(at)).Some? <==> store[at].sourceType in {SingleSource, QueueSource}
  {
    assert Typed(store, at);
  }

  /** Neither a request header nor typed metadata. */
  predicate Harmless(node: Node) {
    !node.RequestHeader? && !node.VideoMetadata? && !node.AudioMetadata?
  }

  predicate Clean(store: Store) {
    forall i :: 0 <= i < |store| ==> Harmless(store[i])
  }

  /** Nodes that concern metadata values only. */
  predicate Plain(node: Node) {
    node.Text? || node.Vector? || node.MetaString? || node.MetaFloat? || node.MetaInt? || node.MetaList? ||
    node.Wrapped? || node.KeyValue?
  }

  predicate PlainFrom(store: Store, n: nat) {
    forall i :: n <= i < |store| ==> Plain(store[i])
  }

  lemma {:induction false} PutIsPlain(store: Store, v: MetaValue)
    ensures PlainFrom(Put(store, v).store, |store|)
    decreases v
  {
    match v
    case List(items) => PutItemsIsPlain(store, items, |items|);
    case KvPair(key, value) => PutIsPlain(store, value);
    case _ =>
  }

  lemma {:induction false} PutItemsIsPlain(store: Store, items: seq<MetaValue>, n: nat)
    requires n <= |items|
    ensures PlainFrom(PutItems(store, items, n).store, |store|)
    decreases items, n
  {
    if n == 0 {
    } else {
      var before := PutItems(store, items, n - 1);
      PutItemsIsPlain(store, items, n - 1);
      PutAppends(before.store, items[n - 1]);
      PutIsPlain(before.store, items[n - 1]);
    }
  }

  lemma {:induction false} PutEntriesIsPlain(store: Store, extra: Extra, keys: seq<string>, n: nat)
    requires n <= |keys| && forall k :: k in keys ==> k in extra
    ensures PlainFrom(PutEntries(store, extra, keys, n).store, |store|)
  {
    if n == 0 {
    } else {
      var before := PutEntries(store, extra, keys, n - 1);
      PutEntriesIsPlain(store, extra, keys, n - 1);
      PutAppends(before.store, KvPair(keys[n - 1], extra[keys[n - 1]]));
      PutIsPlain(before.store, KvPair(keys[n - 1], extra[keys[n - 1]]));
    }
  }

  /** Plain nodes leave a message clean and verified. */
  lemma PlainIsSound(store: Store, later: Store)
    requires store <= later && PlainFrom(later, |store|) && Clean(store) && Verified(store)
    ensures Clean(later) && Verified(later)
  {
    forall i: nat | i < |later|
      ensures Typed(later, i) && Harmless(later[i])
    {
      if i < |store| {
        assert Typed(store, i) && Harmless(store[i]);
      } else {
        assert Plain(later[i]);
      }
    }
  }

  /** So does any one harmless node with proper references. */
  lemma NodeIsSound(store: Store, node: Node)
    requires Clean(store) && Verified(store) && Harmless(node) && Typed(store + [node], |store|)
    ensures Clean(store + [node]) && Verified(store + [node])
  {
    var later := store + [node];
    forall i: nat | i < |later|
      ensures Typed(later, i) && Harmless(later[i])
    {
      if i < |store| {
        assert Typed(store, i) && Harmless(store[i]);
      }
    }
  }

  // ---- Rebuilding an item ----

  lemma PutExtraAppends(store: Store, extra: Extra)
    ensures store <= PutExtra(store, extra) && |PutExtra(store, extra)| > 0
  {
    PutEntriesAppends(store, extra, KeyOrder(extra.Keys), |KeyOrder(extra.Keys)|);
  }

  /** The store once the entries that a relayed item keeps are in it, and where they are. */
  ghost function PutStripped(store: Store, extra: Option<Extra>): (Store, Option<Offset>) {
    if extra.None? || extra.value == map[] then
      (store, None)
    else
      (PutExtra(store, extra.value), Some(|PutExtra(store, extra.value)| - 1))
  }

  lemma PutStrippedReads(store: Store, extra: Option<Extra>, later: Store, from: Offset)
    requires var (built, at) := PutStripped(store, extra); built <= later && |built| <= from
    ensures ReadExtra(later, PutStripped(store, extra).1, from) == StripExtra(extra)
  {
    if extra.Some? && extra.value != map[] {
      PutExtraAppends(store, extra.value);
      ExtraRoundTrip(store, extra.value, later, from);
    }
  }

  lemma PutStrippedAppends(store: Store, extra: Option<Extra>)
    ensures store <= PutStripped(store, extra).0 && PlainFrom(PutStripped(store, extra).0, |store|)
  {
    if extra.Some? && extra.value != map[] {
      PutExtraAppends(store, extra.value);
      PutEntriesIsPlain(store, extra.value, KeyOrder(extra.value.Keys), |KeyOrder(extra.value.Keys)|);
    }
  }

  /** `at` holds the text, if there is one, and precedes `from`. */
  predicate HoldsText(store: Store, at: Option<Offset>, text: Option<string>, from: Offset) {
    && (at.None? <==> text.None?)
    && (at.Some? ==> at.value < from && at.value < |store| && store[at.value] == Text(text.value))
  }

  // ---- Rebuilding a queue ----

  /** `items` are the stripped forms of the first of the other message's queue elements. */
  ghost predicate StrippedSoFar(play: Store, elements: seq<Offset>, store: Store, items: seq<Offset>) {
    && |items| <= |elements|
    && forall j :: 0 <= j < |items| ==>
         && items[j] < |store| && store[items[j]].QueueItem?
         && QueuedAt(store, Some(items[j])) == StripQueued(QueuedAt(play, Some(elements[j])))
  }

  lemma StrippedLater(play: Store, elements: seq<Offset>, store: Store, later: Store, items: seq<Offset>)
    requires store <= later && StrippedSoFar(play, elements, store, items)
    ensures StrippedSoFar(play, elements, later, items)
  {
    forall j | 0 <= j < |items|
      ensures QueuedAt(later, Some(items[j])) == QueuedAt(store, Some(items[j]))
    {
      QueuedIsStable(store, later, Some(items[j]));
    }
  }

  lemma StrippedQueue(play: Store, at: Offset, store: Store, stripped: Offset, items: seq<Offset>)
    requires Verified(play) && at < |play| && play[at].Queue?
    requires play[at].queued < |play| && play[play[at].queued].Vector?
    requires |items| == |play[play[at].queued].elements|
    requires StrippedSoFar(play, play[play[at].queued].elements, store, items)
    requires stripped < |store| && store[stripped].Queue? && Typed(store, stripped)
    requires store[store[stripped].queued] == Vector(items)
    requires store[stripped].startIndex == play[at].startIndex && store[stripped].autoplay == play[at].autoplay
    ensures QueueAt(play, Some(at)).Some?
    ensures QueueAt(store, Some(stripped)) == Some(Strip(QueueAt(play, Some(at)).value))
  {
    assert Typed(play, at);
    var from, to := Some(play[at].queued), Some(store[stripped].queued);
    var elements := play[from.value].elements;
    forall j | 0 <= j < |items|
      ensures ElementAt(store, items[j], to) == StripQueued(ElementAt(play, elements[j], from))
    {
      assert elements[j] in elements && items[j] in items;
    }
    assert ElementsAt(store, items, to) == StripAll(ElementsAt(play, elements, from));
  }

  /** The packet's `Load` says what the other message's says, stripped. */
  ghost predicate SaysStripped(play: Store, at: Offset, store: Store, packet: Offset) {
    && packet < |store| && store[packet].LoadPacket?
    && var load := store[packet].payload;
    && load < |store| && store[load].Load?
    && SourceAt(play, Some(at)).Some?
    && SourceAt(store, Some(load)) == Some(Strip(SourceAt(play, Some(at)).value))
  }

  // ---- What is kept, field by field ----

  /** Two text slots, in two messages, hold the same text. */
  predicate SameText(play: Store, from: Offset, slot: Option<Offset>, store: Store, to: Offset, slot': Option<Offset>) {
    TextAt(play, Before(slot, from)) == TextAt(store, Before(slot', to))
  }

  /** ... or none. */
  predicate SameOptional(play: Store, from: Offset, slot: Option<Offset>, store: Store, to: Offset,
                         slot': Option<Offset>) {
    && (Before(slot, from).Some? <==> Before(slot', to).Some?)
    && SameText(play, from, slot, store, to, slot')
  }

  /** The same keys with the same values, but for the signs of zeroes; none for an empty map. */
  predicate SameExtra(extra: Option<Extra>, extra': Option<Extra>) {
    if extra.None? || extra.value == map[] then
      extra' == None
    else
      && extra'.Some? && extra'.value.Keys == extra.value.Keys
      && forall k :: k in extra.value ==> UpToZero(extra.value[k], extra'.value[k])
  }

  /** The item at `to` has every field of the item at `at` that is relayed, and no other. */
  ghost predicate KeepsItem(play: Store, at: Offset, store: Store, to: Offset) {
    && at < |play| && play[at].MediaItem? && to < |store| && store[to].MediaItem?
    && var f, g := play[at].fields, store[to].fields;
    && SameText(play, at, Some(f.container), store, to, Some(g.container))
    && SameText(play, at, Some(f.sourceUrl), store, to, Some(g.sourceUrl))
    && g.startTime == f.startTime && g.volume == f.volume && g.speed == f.speed
    && SameOptional(play, at, f.title, store, to, g.title)
    && SameOptional(play, at, f.thumbnailUrl, store, to, g.thumbnailUrl)
    && SameExtra(ReadExtra(play, f.extra, at), ReadExtra(store, g.extra, to))
    && g.headers == None && g.metadata == None && g.metadataType == NO_METADATA
  }

  ghost predicate KeepsQueued(play: Store, at: Offset, store: Store, to: Offset) {
    && at < |play| && play[at].QueueItem? && to < |store| && store[to].QueueItem?
    && store[to].playbackDuration == play[at].playbackDuration
    && KeepsItem(play, play[at].mediaItem, store, store[to].mediaItem)
  }

  /** Element by element, in order. */
  ghost predicate KeepsElements(play: Store, elements: seq<Offset>, store: Store, elements': seq<Offset>) {
    |elements'| == |elements| && forall i :: 0 <= i < |elements| ==> KeepsQueued(play, elements[i], store, elements'[i])
  }

  ghost predicate KeepsQueue(play: Store, at: Offset, store: Store, to: Offset) {
    && at < |play| && play[at].Queue? && to < |store| && store[to].Queue?
    && store[to].startIndex == play[at].startIndex && store[to].autoplay == play[at].autoplay
    && play[at].queued < |play| && play[play[at].queued].Vector?
    && store[to].queued < |store| && store[store[to].queued].Vector?
    && KeepsElements(play, play[play[at].queued].elements, store, store[store[to].queued].elements)
  }

  /** The packet loads a source of the same type that keeps what is relayed of the other. */
  ghost predicate KeepsMessage(play: Store, at: Offset, store: Store, packet: Offset) {
    && at < |play| && play[at].Load? && play[at].source.Some?
    && packet < |store| && store[packet].LoadPacket?
    && var load := store[packet].payload;
    && load < |store| && store[load].Load? && store[load].source.Some?
    && store[load].sourceType == play[at].sourceType
    && var from, to := play[at].source.value, store[load].source.value;
       match play[at].sourceType
       case SingleSource => KeepsItem(play, from, store, to)
       case QueueSource => KeepsQueue(play, from, store, to)
       case _ => false
  }

  lemma StrippedExtraIsSame(extra: Option<Extra>)
    ensures SameExtra(extra, StripExtra(extra))
  {
    if extra.Some? && extra.value != map[] {
      forall k | k in extra.value ensures UpToZero(extra.value[k], CanonExtra(extra.value)[k]) {
        CanonIsUpToZero(extra.value[k]);
      }
    }
  }

  lemma StrippedItemIsKept(play: Store, at: Offset, store: Store, to: Offset)
    requires at < |play| && play[at].MediaItem? && to < |store| && store[to].MediaItem?
    requires ItemAt(store, Some(to)) == StripItem(ItemAt(play, Some(at)))
    ensures KeepsItem(play, at, store, to)
  {
    StrippedExtraIsSame(ReadExtra(play, play[at].fields.extra, at));
  }

  lemma StrippedQueuedIsKept(play: Store, at: Offset, store: Store, to: Offset)
    requires Verified(play) && at < |play| && play[at].QueueItem?
    requires Verified(store) && to < |store| && store[to].QueueItem?
    requires QueuedAt(store, Some(to)) == StripQueued(QueuedAt(play, Some(at)))
    ensures KeepsQueued(play, at, store, to)
  {
    assert Typed(play, at) && Typed(store, to);
    StrippedItemIsKept(play, play[at].mediaItem, store, store[to].mediaItem);
  }

  lemma StrippedElementsAreKept(play: Store, elements: seq<Offset>, store: Store, items: seq<Offset>)
    requires Verified(play) && Verified(store) && |items| == |elements|
    requires forall e :: e in elements ==> e < |play| && play[e].QueueItem?
    requires StrippedSoFar(play, elements, store, items)
    ensures KeepsElements(play, elements, store, items)
  {
    forall i | 0 <= i < |elements| ensures KeepsQueued(play, elements[i], store, items[i]) {
      assert elements[i] in elements && items[i] < |store| && store[items[i]].QueueItem?;
      StrippedQueuedIsKept(play, elements[i], store, items[i]);
    }
  }

  lemma KeptItemIsStable(play: Store, at: Offset, store: Store, later: Store, to: Offset)
    requires store <= later && KeepsItem(play, at, store, to)
    ensures KeepsItem(play, at, later, to)
  {
    ExtraIsStable(store, later, store[to].fields.extra, to);
  }

  lemma KeptQueueIsStable(play: Store, at: Offset, store: Store, later: Store, to: Offset)
    requires store <= later && KeepsQueue(play, at, store, to)
    ensures KeepsQueue(play, at, later, to)
  {
    var elements, items := play[play[at].queued].elements, store[store[to].queued].elements;
    forall i | 0 <= i < |elements| ensures KeepsQueued(play, elements[i], later, items[i]) {
      assert KeepsQueued(play, elements[i], store, items[i]);
      KeptItemIsStable(play, play[elements[i]].mediaItem, store, later, store[items[i]].mediaItem);
    }
  }

  /** Relaying a relayed message says nothing new. */
  lemma RelayIsIdempotent(play: Store, at: Offset, once: Store, packet: Offset, twice: Store, packet': Offset)
    requires SaysStripped(play, at, once, packet) && SaysStripped(once, once[packet].payload, twice, packet')
    ensures SourceAt(twice, Some(twice[packet'].payload)) == SourceAt(once, Some(once[packet].payload))
  {
    StripIsIdempotent(SourceAt(play, Some(at)).value);
  }
}
