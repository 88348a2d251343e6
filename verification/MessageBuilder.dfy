/** The builder of version 4 messages, as far as it concerns metadata values and the relay. */
module MessageBuilding {
  import opened Wrappers
  import opened MetaCodec
  import opened ExtraMetadata
  import opened Relay

  class MessageBuilder {
    var nodes: Store

    constructor ()
      ensures Valid() && nodes == []
    {
      nodes := [];
    }

    /** The message so far is one that a receiver accepts, and it holds no headers and no typed metadata. */
    predicate Valid()
      reads this
    {
      Clean(nodes) && Verified(nodes)
    }

    /** Every builder call ends in an append, whose offset it returns. */
    method Append(node: Node) returns (at: Offset)
      modifies this
      ensures nodes == old(nodes) + [node] && at == |old(nodes)|
    {
      at := |nodes|;
      nodes := nodes + [node];
    }

    method BuildMetaValue(v: MetaValue) returns (tag: Tag, at: Offset)
      modifies this
      ensures Placed(nodes, tag, at) == Put(old(nodes), v)
      ensures old(nodes) <= nodes && UpToZero(v, ReadUnion(nodes, tag, Some(at)))
      decreases v
    {
      PutAppends(nodes, v);
      RoundTrip(nodes, v);
      CanonIsUpToZero(v);
      match v
      case String(s) =>
        var text := Append(Text(s));
        at := Append(MetaString(Some(text)));
        tag := StringTag;
      case Float(bits) =>
        at := Append(MetaFloat(FloatSlot(bits)));
        tag := FloatTag;
      case Int(number) =>
        at := Append(MetaInt(IntSlot(number)));
        tag := IntTag;
      case List(items) =>
        var wrapped: seq<Offset> := [];
        for i := 0 to |items|
          invariant PlacedAll(nodes, wrapped) == PutItems(old(nodes), items, i)
        {
          var valueType, value := BuildMetaValue(items[i]);
          var wrapper := Append(Wrapped(valueType, Some(value)));
          wrapped := wrapped + [wrapper];
        }
        var vector := Append(Vector(wrapped));
        at := Append(MetaList(Some(vector)));
        tag := ListTag;
      case KvPair(key, value) =>
        at := BuildMetaKv(key, value, v);
        tag := KvPairTag;
    }

    /** `kv` is the pair that the arguments make up. */
    method BuildMetaKv(key: string, value: MetaValue, ghost kv: MetaValue) returns (at: Offset)
      requires kv == KvPair(key, value)
      modifies this
      ensures Placed(nodes, KvPairTag, at) == Put(old(nodes), kv)
      decreases kv, 0
    {
      var valueType, union := BuildMetaValue(value);
      var text := Append(Text(key));
      at := Append(KeyValue(text, valueType, Some(union)));
    }

    /** The entries of a map, which come in any order, are sorted by key before they are built; so what is
        built depends on the map alone. */
    method BuildExtraMetadata(extra: Extra) returns (at: Offset)
      modifies this
      ensures nodes == PutExtra(old(nodes), extra) && at == |nodes| - 1
      ensures EntriesAscend(nodes, at, extra)
    {
      BuiltEntriesAscend(nodes, extra);
      var entries := ListKeys(extra);
      SortedIsAscending(entries);
      SortedIsKeyOrder(entries, extra.Keys);
      entries := Sorted(entries);
      var kvs: seq<Offset> := [];
      for i := 0 to |entries|
        invariant PlacedAll(nodes, kvs) == PutEntries(old(nodes), extra, entries, i)
      {
        var kv := BuildMetaKv(entries[i], extra[entries[i]], KvPair(entries[i], extra[entries[i]]));
        kvs := kvs + [kv];
      }
      at := Append(Vector(kvs));
    }

    /** The extra metadata of a relayed item; an empty map is left out. */
    method BuildStrippedExtra(extra: Option<Extra>) returns (at: Option<Offset>)
      modifies this
      ensures (nodes, at) == PutStripped(old(nodes), extra)
    {
      at := None;
      if extra.Some? && extra.value != map[] {
        var vector := BuildExtraMetadata(extra.value);
        at := Some(vector);
      }
    }

    method BuildText(text: string) returns (at: Offset)
      modifies this
      ensures nodes == old(nodes) + [Text(text)] && at == |old(nodes)|
    {
      at := Append(Text(text));
    }

    method BuildOptionalText(text: Option<string>) returns (at: Option<Offset>)
      modifies this
      ensures old(nodes) <= nodes && HoldsText(nodes, at, text, |nodes|)
      ensures PlainFrom(nodes, |old(nodes)|)
    {
      at := None;
      if text.Some? {
        var offset := BuildText(text.value);
        at := Some(offset);
      }
    }

    method BuildTexts(item: Item) returns (container: Offset, sourceUrl: Offset, title: Option<Offset>,
                                           thumbnailUrl: Option<Offset>)
      modifies this
      ensures old(nodes) <= nodes && PlainFrom(nodes, |old(nodes)|)
      ensures HoldsText(nodes, Some(container), Some(item.container), |nodes|)
      ensures HoldsText(nodes, Some(sourceUrl), Some(item.sourceUrl), |nodes|)
      ensures HoldsText(nodes, title, item.title, |nodes|)
      ensures HoldsText(nodes, thumbnailUrl, item.thumbnailUrl, |nodes|)
    {
      container := BuildText(item.container);
      sourceUrl := BuildText(item.sourceUrl);
      title := BuildOptionalText(item.title);
      thumbnailUrl := BuildOptionalText(item.thumbnailUrl);
    }

    /** The table of a relayed item, whose texts and extra metadata are already in the store. */
    method AppendItem(item: Item, container: Offset, sourceUrl: Offset, title: Option<Offset>,
                      thumbnailUrl: Option<Offset>, extra: Option<Offset>) returns (at: Offset)
      requires Valid()
      requires HoldsText(nodes, Some(container), Some(item.container), |nodes|)
      requires HoldsText(nodes, Some(sourceUrl), Some(item.sourceUrl), |nodes|)
      requires HoldsText(nodes, title, item.title, |nodes|)
      requires HoldsText(nodes, thumbnailUrl, item.thumbnailUrl, |nodes|)
      modifies this
      ensures Valid() && old(nodes) <= nodes && at == |old(nodes)| < |nodes| && nodes[at].MediaItem?
      ensures ItemAt(nodes, Some(at)) == item.(headers := None, metadataType := NO_METADATA, metadata := None,
                                               extra := ReadExtra(nodes, extra, at))
    {
      var node := MediaItem(ItemFields(container, sourceUrl, item.startTime, item.volume, item.speed, None, title,
                                       thumbnailUrl, NO_METADATA, None, extra));
      NodeIsSound(nodes, node);
      at := Append(node);
    }

    /** Rebuilds the item at an offset of another message. */
    method StripFlatMediaItem(play: Store, at: Offset) returns (stripped: Offset)
      requires Valid() && at < |play| && play[at].MediaItem?
      modifies this
      ensures Valid() && old(nodes) <= nodes && stripped < |nodes| && nodes[stripped].MediaItem?
      ensures ItemAt(nodes, Some(stripped)) == StripItem(ItemAt(play, Some(at)))
      ensures KeepsItem(play, at, nodes, stripped)
    {
      var item := ItemAt(play, Some(at));
      var read := ReadExtraMetadata(play, play[at].fields.extra, at);
      var extra := BuildStrippedExtra(read);
      PutStrippedAppends(old(nodes), read);
      var container, sourceUrl, title, thumbnailUrl := BuildTexts(item);
      PlainIsSound(old(nodes), nodes);
      stripped := AppendItem(item, container, sourceUrl, title, thumbnailUrl, extra);
      PutStrippedReads(old(nodes), read, nodes, stripped);
      StrippedItemIsKept(play, at, nodes, stripped);
    }

    method StripQueueItem(play: Store, at: Offset) returns (stripped: Offset)
      requires Valid() && Verified(play) && at < |play| && play[at].QueueItem?
      modifies this
      ensures Valid() && old(nodes) <= nodes && stripped < |nodes| && nodes[stripped].QueueItem?
      ensures QueuedAt(nodes, Some(stripped)) == StripQueued(QueuedAt(play, Some(at)))
    {
      assert Typed(play, at);
      var item := StripFlatMediaItem(play, play[at].mediaItem);
      ghost var before := nodes;
      NodeIsSound(nodes, QueueItem(item, play[at].playbackDuration));
      stripped := Append(QueueItem(item, play[at].playbackDuration));
      ItemIsStable(before, nodes, Some(item));
    }

    method StripQueue(play: Store, at: Offset) returns (stripped: Offset)
      requires Valid() && Verified(play) && at < |play| && play[at].Queue?
      modifies this
      ensures Valid() && old(nodes) <= nodes && stripped < |nodes| && nodes[stripped].Queue?
      ensures QueueAt(play, Some(at)).Some?
      ensures QueueAt(nodes, Some(stripped)) == Some(Strip(QueueAt(play, Some(at)).value))
      ensures KeepsQueue(play, at, nodes, stripped)
    {
      assert Typed(play, at);
      var vector := play[at].queued;
      var elements := play[vector].elements;
      var items: seq<Offset> := [];
      for i := 0 to |elements|
        invariant Valid() && old(nodes) <= nodes && |items| == i
        invariant StrippedSoFar(play, elements, nodes, items)
      {
        assert elements[i] in elements;
        ghost var before := nodes;
        var item := StripQueueItem(play, elements[i]);
        StrippedLater(play, elements, before, nodes, items);
        items := items + [item];
      }
      ghost var built := nodes;
      var newVector := BuildVector(items);
      var queue := Queue(newVector, play[at].startIndex, play[at].autoplay);
      NodeIsSound(nodes, queue);
      stripped := Append(queue);
      StrippedLater(play, elements, built, nodes, items);
      StrippedQueue(play, at, nodes, stripped, items);
      StrippedElementsAreKept(play, elements, nodes, items);
    }

    method BuildVector(items: seq<Offset>) returns (at: Offset)
      requires Valid()
      modifies this
      ensures Valid() && nodes == old(nodes) + [Vector(items)] && at == |old(nodes)|
    {
      NodeIsSound(nodes, Vector(items));
      at := Append(Vector(items));
    }

    /** The `Load` table and the packet around it. */
    method FinishLoad(sourceType: SourceType, source: Offset) returns (load: Offset, packet: Offset)
      requires Valid() && source < |nodes|
      requires sourceType == SingleSource ==> nodes[source].MediaItem?
      requires sourceType == QueueSource ==> nodes[source].Queue?
      modifies this
      ensures Valid() && old(nodes) <= nodes && load == |old(nodes)| && packet == load + 1 < |nodes|
      ensures nodes[load] == Load(sourceType, Some(source)) && nodes[packet] == LoadPacket(load)
    {
      NodeIsSound(nodes, Load(sourceType, Some(source)));
      load := Append(Load(sourceType, Some(source)));
      NodeIsSound(nodes, LoadPacket(load));
      packet := Append(LoadPacket(load));
    }

    /** Builds the whole message anew, or nothing if its source is of a type that the relay does not know. */
    method FromPlayStripped(play: Store, at: Offset) returns (packet: Option<Offset>)
      requires Valid() && Verified(play) && at < |play| && play[at].Load?
      modifies this
      ensures Valid()
      ensures packet.None? <==> SourceAt(play, Some(at)).None?
      ensures packet.Some? ==> SaysStripped(play, at, nodes, packet.value)
      ensures packet.Some? ==> KeepsMessage(play, at, nodes, packet.value)
    {
      assert Typed(play, at);
      match play[at].sourceType
      case SingleSource =>
        var item := StripFlatMediaItem(play, play[at].source.value);
        ghost var built := nodes;
        var load, root := FinishLoad(SingleSource, item);
        ItemIsStable(built, nodes, Some(item));
        KeptItemIsStable(play, play[at].source.value, built, nodes, item);
        packet := Some(root);
      case QueueSource =>
        var queue := StripQueue(play, play[at].source.value);
        ghost var built := nodes;
        var load, root := FinishLoad(QueueSource, queue);
        QueueIsStable(built, nodes, Some(queue));
        KeptQueueIsStable(play, play[at].source.value, built, nodes, queue);
        packet := Some(root);
      case _ =>
        packet := None;
    }
  }

  /** The keys of a map in the order in which an iteration happens to meet them. */
  method ListKeys(extra: Extra) returns (keys: seq<string>)
    ensures Distinct(keys) && forall k :: k in keys <==> k in extra
  {
    keys := [];
    var rest := extra.Keys;
    while rest != {}
      invariant Distinct(keys) && rest <= extra.Keys
      invariant forall k :: k in keys <==> k in extra && k !in rest
      decreases rest
    {
      var k :| k in rest;
      keys := [k] + keys;
      rest := rest - {k};
    }
  }

  method ReadExtraMetadata(store: Store, extra: Option<Offset>, from: Offset) returns (r: Option<Extra>)
    ensures r == ReadExtra(store, extra, from)
  {
    var kvs := Before(extra, from);
    if kvs.None? {
      return None;
    }
    var entries := VectorAt(store, kvs);
    var result: Extra := map[];
    for i := 0 to |entries|
      invariant result == ReadEntries(store, kvs.value, entries, i)
    {
      var kv := EntryAt(store, entries[i], kvs.value);
      if kv.KvPair? {
        result := result[kv.key := kv.value];
      }
    }
    return Some(result);
  }
}
