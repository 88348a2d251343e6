/** The `extra_metadata` map of a media item: entries built in the order of their keys and read back
    into a map. */
module ExtraMetadata {
  import opened Wrappers
  import opened MetaCodec

  // ---- Key order ----

  /** Strict lexicographic order of keys. */
  predicate Less(a: string, b: string) {
    b != [] && (a == [] || a[0] < b[0] || (a[0] == b[0] && Less(a[1..], b[1..])))
  }

  /** The keys agree before `n`, where the first ends or has the smaller character. */
  predicate LessFrom(a: string, b: string, n: nat) {
    n <= |a| && n < |b| && a[..n] == b[..n] && (n == |a| || a[n] < b[n])
  }

  ghost predicate Precedes(a: string, b: string) {
    exists n: nat :: LessFrom(a, b, n)
  }

  lemma {:induction false} LessHasAPosition(a: string, b: string) returns (n: nat)
    requires Less(a, b)
    ensures LessFrom(a, b, n)
  {
    if a == [] || a[0] < b[0] {
      n := 0;
    } else {
      var m := LessHasAPosition(a[1..], b[1..]);
      n := m + 1;
      assert a[..n] == [a[0]] + a[1..][..m] && b[..n] == [b[0]] + b[1..][..m];
    }
  }

  lemma {:induction false} PositionMakesLess(a: string, b: string, n: nat)
    requires LessFrom(a, b, n)
    ensures Less(a, b)
    decreases n
  {
    if n == 0 {
    } else {
      assert a[0] == a[..n][0] == b[..n][0] == b[0];
      assert a[1..][..n - 1] == a[..n][1..] == b[..n][1..] == b[1..][..n - 1];
      PositionMakesLess(a[1..], b[1..], n - 1);
    }
  }

  /** The order is that of the first character that differs, a prefix coming first. */
  lemma LessIsLexicographic(a: string, b: string)
    ensures Less(a, b) <==> Precedes(a, b)
  {
    if Less(a, b) {
      var n := LessHasAPosition(a, b);
    }
    if n: nat :| LessFrom(a, b, n) {
      PositionMakesLess(a, b, n);
    }
  }

  lemma {:induction false} LessIsTransitive(a: string, b: string, c: string)
    requires Less(a, b) && Less(b, c)
    ensures Less(a, c)
  {
    if a == [] || a[0] < b[0] || b[0] < c[0] {
    } else {
      LessIsTransitive(a[1..], b[1..], c[1..]);
    }
  }

  lemma {:induction false} LessIsTotal(a: string, b: string)
    ensures Less(a, b) || a == b || Less(b, a)
  {
    if a == [] || b == [] || a[0] != b[0] {
    } else {
      LessIsTotal(a[1..], b[1..]);
      assert a == [a[0]] + a[1..] && b == [b[0]] + b[1..];
    }
  }

  lemma {:induction false} LessIsAsymmetric(a: string, b: string)
    requires Less(a, b)
    ensures !Less(b, a)
  {
    if a == [] || a[0] < b[0] {
    } else {
      LessIsAsymmetric(a[1..], b[1..]);
    }
  }

  predicate Below(k: string, keys: seq<string>) {
    forall x :: x in keys ==> Less(k, x)
  }

  /** Strictly ascending, so without duplicates. */
  predicate Ascending(keys: seq<string>) {
    keys == [] || (Below(keys[0], keys[1..]) && Ascending(keys[1..]))
  }

  predicate SameMembers(a: seq<string>, b: seq<string>) {
    (forall x :: x in a ==> x in b) && (forall x :: x in b ==> x in a)
  }

  function Insert(k: string, keys: seq<string>): seq<string> {
    if keys == [] then [k]
    else if Less(k, keys[0]) then [k] + keys
    else [keys[0]] + Insert(k, keys[1..])
  }

  lemma Unfold(keys: seq<string>)
    requires keys != []
    ensures forall x :: x in keys <==> x == keys[0] || x in keys[1..]
  {
    assert keys == [keys[0]] + keys[1..];
  }

  lemma {:induction false} InsertMembers(k: string, keys: seq<string>)
    ensures forall x :: x in Insert(k, keys) <==> x in keys || x == k
  {
    if keys == [] {
    } else {
      Unfold(keys);
      InsertMembers(k, keys[1..]);
    }
  }

  lemma BelowIsTransitive(k: string, l: string, keys: seq<string>)
    requires Less(k, l) && Below(l, keys)
    ensures Below(k, keys)
  {
    forall x | x in keys ensures Less(k, x) {
      LessIsTransitive(k, l, x);
    }
  }

  lemma {:induction false} InsertKeepsOrder(k: string, keys: seq<string>)
    requires Ascending(keys) && k !in keys
    ensures Ascending(Insert(k, keys))
  {
    if keys == [] {
    } else {
      Unfold(keys);
      var rest := keys[1..];
      if Less(k, keys[0]) {
        BelowIsTransitive(k, keys[0], rest);
        assert ([k] + keys)[1..] == keys;
      } else {
        LessIsTotal(k, keys[0]);
        InsertKeepsOrder(k, rest);
        InsertMembers(k, rest);
        assert ([keys[0]] + Insert(k, rest))[1..] == Insert(k, rest);
      }
    }
  }

  /** The sort of `build_extra_metadata`. */
  function Sorted(keys: seq<string>): seq<string> {
    if keys == [] then [] else Insert(keys[0], Sorted(keys[1..]))
  }

  predicate Distinct(keys: seq<string>) {
    keys == [] || (keys[0] !in keys[1..] && Distinct(keys[1..]))
  }

  lemma {:induction false} SortedIsAscending(keys: seq<string>)
    requires Distinct(keys)
    ensures Ascending(Sorted(keys)) && SameMembers(Sorted(keys), keys)
  {
    if keys == [] {
    } else {
      Unfold(keys);
      SortedIsAscending(keys[1..]);
      InsertMembers(keys[0], Sorted(keys[1..]));
      InsertKeepsOrder(keys[0], Sorted(keys[1..]));
    }
  }

  /** The same keys have only one ascending order. */
  lemma {:induction false} OneAscendingOrder(a: seq<string>, b: seq<string>)
    requires Ascending(a) && Ascending(b) && SameMembers(a, b)
    ensures a == b
  {
    EmptyTogether(a, b);
    if a == [] {
    } else {
      Unfold(a);
      Unfold(b);
      SameHead(a, b);
      NotAbove(a[0], a[1..]);
      NotAbove(b[0], b[1..]);
      OneAscendingOrder(a[1..], b[1..]);
      assert a == [a[0]] + a[1..] && b == [b[0]] + b[1..];
    }
  }

  lemma EmptyTogether(a: seq<string>, b: seq<string>)
    requires SameMembers(a, b)
    ensures a == [] <==> b == []
  {
    if a != [] {
      assert a[0] in a;
    }
    if b != [] {
      assert b[0] in b;
    }
  }

  lemma NotAbove(k: string, keys: seq<string>)
    requires Below(k, keys)
    ensures k !in keys
  {
    if k in keys {
      LessIsAsymmetric(k, k);
    }
  }

  lemma SameHead(a: seq<string>, b: seq<string>)
    requires a != [] && b != [] && Ascending(a) && Ascending(b) && SameMembers(a, b)
    ensures a[0] == b[0]
  {
    assert a[0] in a && b[0] in b;
    Unfold(a);
    Unfold(b);
    if a[0] != b[0] {
      LessIsAsymmetric(a[0], b[0]);
    }
  }

  /** Any two ways to list the same keys are sorted alike. */
  lemma SortForgetsIterationOrder(keys: seq<string>, keys': seq<string>)
    requires Distinct(keys) && Distinct(keys') && SameMembers(keys, keys')
    ensures Sorted(keys) == Sorted(keys')
  {
    SortedIsAscending(keys);
    SortedIsAscending(keys');
    OneAscendingOrder(Sorted(keys), Sorted(keys'));
  }

  /** The keys of a map in ascending order. */
  ghost function KeyOrder(keys: set<string>): (r: seq<string>)
    ensures Ascending(r) && forall x :: x in r <==> x in keys
  {
    if keys == {} then
      []
    else
      var k :| k in keys;
      var rest := KeyOrder(keys - {k});
      InsertMembers(k, rest);
      InsertKeepsOrder(k, rest);
      Insert(k, rest)
  }

  lemma SortedIsKeyOrder(keys: seq<string>, all: set<string>)
    requires Distinct(keys) && forall x :: x in keys <==> x in all
    ensures Sorted(keys) == KeyOrder(all)
  {
    SortedIsAscending(keys);
    OneAscendingOrder(Sorted(keys), KeyOrder(all));
  }

  // ---- Building ----

  type Extra = map<string, MetaValue>

  /** `build_meta_kv` for the first `n` keys. */
  function PutEntries(store: Store, extra: Extra, keys: seq<string>, n: nat): PlacedAll
    requires n <= |keys| && forall k :: k in keys ==> k in extra
  {
    if n == 0 then
      PlacedAll(store, [])
    else
      var before := PutEntries(store, extra, keys, n - 1);
      var p := Put(before.store, KvPair(keys[n - 1], extra[keys[n - 1]]));
      PlacedAll(p.store, before.offsets + [p.at])
  }

  /** `build_extra_metadata`: what a map adds to a store; the vector of entries comes last. */
  ghost function PutExtra(store: Store, extra: Extra): Store {
    var keys := KeyOrder(extra.Keys);
    var all := PutEntries(store, extra, keys, |keys|);
    all.store + [Vector(all.offsets)]
  }

  // ---- Reading ----

  /** The entry at an offset of a vector. */
  function EntryAt(store: Store, entry: Offset, vector: Offset): MetaValue {
    ReadUnion(store, KvPairTag, Before(Some(entry), vector))
  }

  /** The first `n` entries; a later entry replaces an earlier one with its key. */
  function ReadEntries(store: Store, vector: Offset, entries: seq<Offset>, n: nat): Extra
    requires n <= |entries|
  {
    if n == 0 then
      map[]
    else
      var before := ReadEntries(store, vector, entries, n - 1);
      var entry := EntryAt(store, entries[n - 1], vector);
      if entry.KvPair? then before[entry.key := entry.value] else before
  }

  /** Entry `i` is the last of the first `n` with its key. */
  ghost predicate LastWithKey(store: Store, vector: Offset, entries: seq<Offset>, n: nat, i: nat) {
    && i < n <= |entries| && EntryAt(store, entries[i], vector).KvPair?
    && forall j :: i < j < n && EntryAt(store, entries[j], vector).KvPair? ==>
         EntryAt(store, entries[j], vector).key != EntryAt(store, entries[i], vector).key
  }

  /** Of several entries with one key the last is read. */
  lemma {:induction false} LastEntryWins(store: Store, vector: Offset, entries: seq<Offset>, n: nat, i: nat)
    requires LastWithKey(store, vector, entries, n, i)
    ensures var entry, read := EntryAt(store, entries[i], vector), ReadEntries(store, vector, entries, n);
            entry.key in read && read[entry.key] == entry.value
    decreases n
  {
    if i == n - 1 {
    } else {
      LastEntryWins(store, vector, entries, n - 1, i);
    }
  }

  /** Nothing else is read. */
  lemma {:induction false} OnlyEntriesAreRead(store: Store, vector: Offset, entries: seq<Offset>, n: nat, k: string)
    returns (i: nat)
    requires n <= |entries| && k in ReadEntries(store, vector, entries, n)
    ensures LastWithKey(store, vector, entries, n, i) && EntryAt(store, entries[i], vector).key == k
    decreases n
  {
    var entry := EntryAt(store, entries[n - 1], vector);
    if entry.KvPair? && entry.key == k {
      i := n - 1;
    } else {
      i := OnlyEntriesAreRead(store, vector, entries, n - 1, k);
    }
  }

  /** `read_extra_metadata` of the item at `from`. */
  function ReadExtra(store: Store, extra: Option<Offset>, from: Offset): Option<Extra> {
    var vector := Before(extra, from);
    if vector.None? then None
    else
      var entries := VectorAt(store, vector);
      Some(ReadEntries(store, vector.value, entries, |entries|))
  }

  function CanonExtra(extra: Extra): Extra {
    map k | k in extra :: Canon(extra[k])
  }

  // ---- Round trip ----

  lemma {:induction false} PutEntriesAppends(store: Store, extra: Extra, keys: seq<string>, n: nat)
    requires n <= |keys| && forall k :: k in keys ==> k in extra
    ensures var all := PutEntries(store, extra, keys, n);
            store <= all.store && |all.offsets| == n && forall i :: 0 <= i < n ==> all.offsets[i] < |all.store|
  {
    if n == 0 {
    } else {
      PutEntriesAppends(store, extra, keys, n - 1);
      PutAppends(PutEntries(store, extra, keys, n - 1).store, KvPair(keys[n - 1], extra[keys[n - 1]]));
    }
  }

  /** The first `n` offsets hold the entries of the first `n` keys. */
  ghost predicate Holds(store: Store, offsets: seq<Offset>, extra: Extra, keys: seq<string>, n: nat) {
    && n <= |offsets| && n <= |keys|
    && forall i :: 0 <= i < n ==>
         && offsets[i] < |store| && keys[i] in extra
         && ReadUnion(store, KvPairTag, Some(offsets[i])) == KvPair(keys[i], Canon(extra[keys[i]]))
  }

  lemma HoldsLater(store: Store, later: Store, offsets: seq<Offset>, extra: Extra, keys: seq<string>, n: nat)
    requires store <= later && Holds(store, offsets, extra, keys, n)
    ensures Holds(later, offsets, extra, keys, n)
  {
    forall i | 0 <= i < n
      ensures ReadUnion(later, KvPairTag, Some(offsets[i])) == KvPair(keys[i], Canon(extra[keys[i]]))
    {
      ReadIsStable(store, later, KvPairTag, Some(offsets[i]));
    }
  }

  /** One more entry leaves the earlier ones readable and reads back itself. */
  lemma HoldsOneMore(before: PlacedAll, extra: Extra, keys: seq<string>, n: nat)
    requires n < |keys| && |before.offsets| == n && keys[n] in extra
    requires Holds(before.store, before.offsets, extra, keys, n)
    ensures var p := Put(before.store, KvPair(keys[n], extra[keys[n]]));
            Holds(p.store, before.offsets + [p.at], extra, keys, n + 1)
  {
    var kv := KvPair(keys[n], extra[keys[n]]);
    var p := Put(before.store, kv);
    PutAppends(before.store, kv);
    HoldsLater(before.store, p.store, before.offsets, extra, keys, n);
    RoundTrip(before.store, kv);
  }

  /** Every entry reads back from where it was put. */
  lemma {:induction false} EntriesRoundTrip(store: Store, extra: Extra, keys: seq<string>, n: nat)
    requires n <= |keys| && forall k :: k in keys ==> k in extra
    ensures var all := PutEntries(store, extra, keys, n); Holds(all.store, all.offsets, extra, keys, n)
  {
    if n == 0 {
    } else {
      EntriesRoundTrip(store, extra, keys, n - 1);
      PutEntriesAppends(store, extra, keys, n - 1);
      HoldsOneMore(PutEntries(store, extra, keys, n - 1), extra, keys, n - 1);
    }
  }

  function CanonOf(extra: Extra, keys: seq<string>, n: nat): Extra
    requires n <= |keys| && forall k :: k in keys ==> k in extra
  {
    if n == 0 then map[] else CanonOf(extra, keys, n - 1)[keys[n - 1] := Canon(extra[keys[n - 1]])]
  }

  lemma {:induction false} CanonOfKeys(extra: Extra, keys: seq<string>, n: nat)
    requires n <= |keys| && forall k :: k in keys ==> k in extra
    ensures forall k :: k in CanonOf(extra, keys, n) <==> k in keys[..n]
    ensures forall k :: k in CanonOf(extra, keys, n) ==> k in extra && CanonOf(extra, keys, n)[k] == Canon(extra[k])
  {
    if n == 0 {
    } else {
      CanonOfKeys(extra, keys, n - 1);
      assert keys[..n] == keys[..n - 1] + [keys[n - 1]];
    }
  }

  lemma CanonOfAll(extra: Extra, keys: seq<string>)
    requires forall k :: k in keys <==> k in extra
    ensures CanonOf(extra, keys, |keys|) == CanonExtra(extra)
  {
    CanonOfKeys(extra, keys, |keys|);
    assert keys[..|keys|] == keys;
  }

  lemma {:induction false} EntriesMakeTheMap(store: Store, vector: Offset, entries: seq<Offset>, extra: Extra,
                                             keys: seq<string>, n: nat)
    requires n <= |keys| == |entries| && forall k :: k in keys ==> k in extra
    requires Holds(store, entries, extra, keys, |keys|)
    requires forall i :: 0 <= i < |entries| ==> entries[i] < vector
    ensures ReadEntries(store, vector, entries, n) == CanonOf(extra, keys, n)
  {
    if n == 0 {
    } else {
      EntriesMakeTheMap(store, vector, entries, extra, keys, n - 1);
      assert EntryAt(store, entries[n - 1], vector) == KvPair(keys[n - 1], Canon(extra[keys[n - 1]]));
    }
  }

  lemma ReadVector(store: Store, extra: Extra, keys: seq<string>, later: Store)
    requires forall k :: k in keys <==> k in extra
    requires var all := PutEntries(store, extra, keys, |keys|); all.store + [Vector(all.offsets)] <= later
    ensures var all := PutEntries(store, extra, keys, |keys|);
            |all.offsets| == |keys| &&
            ReadEntries(later, |all.store|, all.offsets, |keys|) == CanonExtra(extra)
  {
    var all := PutEntries(store, extra, keys, |keys|);
    PutEntriesAppends(store, extra, keys, |keys|);
    EntriesRoundTrip(store, extra, keys, |keys|);
    assert all.store <= later;
    HoldsLater(all.store, later, all.offsets, extra, keys, |keys|);
    EntriesMakeTheMap(later, |all.store|, all.offsets, extra, keys, |keys|);
    CanonOfAll(extra, keys);
  }

  /** A whole map comes back, up to the sign of zeroes, wherever the item that holds it stands in any later
      store. */
  lemma ExtraRoundTrip(store: Store, extra: Extra, later: Store, from: Offset)
    requires PutExtra(store, extra) <= later && |PutExtra(store, extra)| <= from
    ensures ReadExtra(later, Some(|PutExtra(store, extra)| - 1), from) == Some(CanonExtra(extra))
  {
    var keys := KeyOrder(extra.Keys);
    var all := PutEntries(store, extra, keys, |keys|);
    ReadVector(store, extra, keys, later);
    assert later[|all.store|] == PutExtra(store, extra)[|all.store|] == Vector(all.offsets);
  }

  /** The entries of the vector at `vector` read as pairs with these keys. */
  ghost predicate EntriesAre(store: Store, vector: Offset, keys: seq<string>) {
    var entries := VectorAt(store, Some(vector));
    && |entries| == |keys|
    && forall i :: 0 <= i < |entries| ==> EntryHasKey(EntryAt(store, entries[i], vector), keys[i])
  }

  predicate EntryHasKey(entry: MetaValue, key: string) {
    entry.KvPair? && entry.key == key
  }

  ghost predicate PairsAscend(keys: seq<string>) {
    forall i, j :: 0 <= i < j < |keys| ==> Precedes(keys[i], keys[j])
  }

  /** One entry for each key of the map, in strictly ascending order. */
  ghost predicate EntriesAscend(store: Store, vector: Offset, extra: Extra) {
    exists keys :: EntriesAre(store, vector, keys) && PairsAscend(keys) && forall k :: k in keys <==> k in extra
  }

  lemma {:induction false} AscendingPair(keys: seq<string>, i: nat, j: nat)
    requires Ascending(keys) && i < j < |keys|
    ensures Less(keys[i], keys[j])
  {
    if i == 0 {
      assert keys[j] == keys[1..][j - 1];
    } else {
      AscendingPair(keys[1..], i - 1, j - 1);
    }
  }

  lemma AscendingPairs(keys: seq<string>)
    requires Ascending(keys)
    ensures PairsAscend(keys)
  {
    forall i, j | 0 <= i < j < |keys| ensures Precedes(keys[i], keys[j]) {
      AscendingPair(keys, i, j);
      LessIsLexicographic(keys[i], keys[j]);
    }
  }

  lemma HeldEntries(store: Store, vector: Offset, entries: seq<Offset>, extra: Extra, keys: seq<string>)
    requires |entries| == |keys| && VectorAt(store, Some(vector)) == entries
    requires Holds(store, entries, extra, keys, |keys|)
    requires forall i :: 0 <= i < |entries| ==> entries[i] < vector
    ensures EntriesAre(store, vector, keys)
  {
    forall i | 0 <= i < |entries| ensures EntryHasKey(EntryAt(store, entries[i], vector), keys[i]) {
      assert EntryAt(store, entries[i], vector) == KvPair(keys[i], Canon(extra[keys[i]]));
    }
  }

  lemma BuiltEntries(store: Store, extra: Extra, keys: seq<string>)
    requires forall k :: k in keys ==> k in extra
    ensures var all := PutEntries(store, extra, keys, |keys|);
            EntriesAre(all.store + [Vector(all.offsets)], |all.store|, keys)
  {
    var all := PutEntries(store, extra, keys, |keys|);
    var later := all.store + [Vector(all.offsets)];
    PutEntriesAppends(store, extra, keys, |keys|);
    EntriesRoundTrip(store, extra, keys, |keys|);
    HoldsLater(all.store, later, all.offsets, extra, keys, |keys|);
    HeldEntries(later, |all.store|, all.offsets, extra, keys);
  }

  lemma BuiltEntriesAscend(store: Store, extra: Extra)
    ensures EntriesAscend(PutExtra(store, extra), |PutExtra(store, extra)| - 1, extra)
  {
    var keys := KeyOrder(extra.Keys);
    BuiltEntries(store, extra, keys);
    AscendingPairs(keys);
  }

  lemma CanonExtraIsIdentity(extra: Extra)
    ensures CanonExtra(extra) == extra <==> forall k :: k in extra ==> !HasNegativeZero(extra[k])
  {
    forall k | k in extra
      ensures Canon(extra[k]) == extra[k] <==> !HasNegativeZero(extra[k])
    {
      CanonIsIdentity(extra[k]);
    }
    assert forall k :: k in extra ==> CanonExtra(extra)[k] == Canon(extra[k]);
  }

  lemma {:induction false} CanonIsIdempotent(v: MetaValue)
    ensures Canon(Canon(v)) == Canon(v) && !HasNegativeZero(Canon(v))
  {
    match v
    case List(items) =>
      forall i | 0 <= i < |items|
        ensures Canon(Canon(items[i])) == Canon(items[i]) && !HasNegativeZero(Canon(items[i]))
      {
        CanonIsIdempotent(items[i]);
      }
    case KvPair(key, value) => CanonIsIdempotent(value);
    case _ =>
  }
}
