/** Key encodings, after keys.rs and forget.rs, and the scans that rely on them: `list_entities`
    and `gc_tombstones` of engine.rs and `query_range` of temporal.rs. */
module Keys {
  import opened Results
  import opened Sequences
  import opened MachineTypes
  import opened ByteOrder

  const KEY_SEPARATOR: Byte := 0xFF

  // ---------------------------------------------------------------------------------------
  //  Big-endian numbers
  // ---------------------------------------------------------------------------------------

  function BigEndian(value: nat, width: nat): (bytes: Bytes)
    ensures |bytes| == width
    decreases width
  {
    if width == 0 then [] else BigEndian(value / 256, width - 1) + [value % 256]
  }

  function FromBigEndian(bytes: Bytes): nat {
    if bytes == [] then 0 else FromBigEndian(bytes[..|bytes| - 1]) * 256 + bytes[|bytes| - 1]
  }

  predicate Fits(value: nat, width: nat)
    decreases width
  {
    if width == 0 then value == 0 else Fits(value / 256, width - 1)
  }

  lemma U64Fits(value: U64)
    ensures Fits(value, 8)
  {
    assert Fits(value, 8) == Fits(value / 256 / 256 / 256 / 256, 4);
  }

  lemma {:induction false} BigEndianRoundTrip(value: nat, width: nat)
    requires Fits(value, width)
    ensures FromBigEndian(BigEndian(value, width)) == value
    decreases width
  {
    if width > 0 {
      BigEndianRoundTrip(value / 256, width - 1);
    }
  }

  /** Big-endian numbers of one width compare as byte strings the way they compare as numbers. */
  lemma {:induction false} BigEndianOrder(a: nat, b: nat, width: nat)
    requires Fits(a, width) && Fits(b, width)
    ensures Less(BigEndian(a, width), BigEndian(b, width)) <==> a < b
    decreases width
  {
    hide FromBigEndian;
    if width > 0 {
      BigEndianOrder(a / 256, b / 256, width - 1);
      LessByLast(BigEndian(a / 256, width - 1), BigEndian(b / 256, width - 1), a % 256, b % 256);
      BigEndianRoundTrip(a / 256, width - 1);
      BigEndianRoundTrip(b / 256, width - 1);
    }
  }

  function EncodeU64(value: U64): (bytes: Bytes)
    ensures |bytes| == 8
  {
    BigEndian(value, 8)
  }

  // ---------------------------------------------------------------------------------------
  //  Temporal keys
  // ---------------------------------------------------------------------------------------

  /** Entity ids are UTF-8, in which no byte is 0xFF. */
  predicate IsEntity(entity: Bytes) {
    KEY_SEPARATOR !in entity
  }

  function TemporalPrefix(entity: Bytes): Bytes {
    entity + [KEY_SEPARATOR]
  }

  function TemporalKey(entity: Bytes, timestamp: U64): Bytes {
    TemporalPrefix(entity) + EncodeU64(timestamp)
  }

  /** Within an entity, byte order is numeric order of the timestamps. */
  lemma TemporalKeyOrder(entity: Bytes, a: U64, b: U64)
    ensures Less(TemporalKey(entity, a), TemporalKey(entity, b)) <==> a < b
  {
    LessWithPrefix(TemporalPrefix(entity), EncodeU64(a), EncodeU64(b));
    U64Fits(a);
    U64Fits(b);
    BigEndianOrder(a, b, 8);
  }

  /** A temporal key starts with the prefix of an entity only if it belongs to that entity. */
  lemma PrefixIdentifiesEntity(entity: Bytes, other: Bytes, timestamp: U64)
    requires IsEntity(entity) && IsEntity(other)
    ensures TemporalPrefix(entity) <= TemporalKey(other, timestamp) <==> entity == other
  {
    var key := TemporalKey(other, timestamp);
    assert key[|other|] == KEY_SEPARATOR;
    if TemporalPrefix(entity) <= key {
      assert key[|entity|] == TemporalPrefix(entity)[|entity|] == KEY_SEPARATOR;
      assert forall i :: 0 <= i < |entity| ==> key[i] == TemporalPrefix(entity)[i] == entity[i];
      assert forall i :: 0 <= i < |other| ==> key[i] == other[i];
    }
  }

  lemma TemporalKeyIsInjective(entity: Bytes, a: U64, other: Bytes, b: U64)
    requires IsEntity(entity) && IsEntity(other)
    requires TemporalKey(entity, a) == TemporalKey(other, b)
    ensures entity == other && a == b
  {
    PrefixIdentifiesEntity(entity, other, b);
    TemporalKeyOrder(entity, a, b);
    TemporalKeyOrder(entity, b, a);
    LessIrreflexive(TemporalKey(entity, a));
  }

  // ---------------------------------------------------------------------------------------
  //  query_range
  // ---------------------------------------------------------------------------------------

  /** The keys a range iterator yields for [start, end), in order. */
  function Range(keys: set<Bytes>, start: Bytes, end: Bytes): set<Bytes> {
    set k | k in keys && AtMost(start, k) && Less(k, end)
  }

  function Matching(scan: seq<Bytes>, prefix: Bytes): (found: seq<Bytes>)
    ensures forall k :: k in found <==> k in scan && prefix <= k && |k| == |prefix| + 8
    ensures Ascending(scan) ==> Ascending(found)
  {
    if scan == [] then []
    else
      var rest := Matching(scan[1..], prefix);
      assert Ascending(scan) ==> Ascending(scan[1..]);
      assert forall i :: 0 <= i < |rest| ==> rest[i] in rest;
      if prefix <= scan[0] && |scan[0]| == |prefix| + 8 then [scan[0]] + rest else rest
  }

  /** The matching keys in chronological order. */
  function InRange(keys: set<Bytes>, entity: Bytes, start: U64, end: U64): seq<Bytes> {
    Matching(Sorted(Range(keys, TemporalKey(entity, start), TemporalKey(entity, end))), TemporalPrefix(entity))
  }

  function Reversed(keys: seq<Bytes>): (r: seq<Bytes>)
    ensures |r| == |keys| && forall i :: 0 <= i < |keys| ==> r[i] == keys[|keys| - 1 - i]
  {
    seq(|keys|, i requires 0 <= i < |keys| => keys[|keys| - 1 - i])
  }

  datatype TemporalOrder = Chronological | ReverseChronological

  /** query_range */
  function QueryRange(
      keys: set<Bytes>, entity: Bytes, start: U64, end: U64, order: TemporalOrder, limit: nat): seq<Bytes>
  {
    var found := InRange(keys, entity, start, end);
    Take(if order.ReverseChronological? then Reversed(found) else found, limit)
  }

  /** Of any set of temporal keys, those of one entity with a timestamp from start up to but not
      including end, oldest first. */
  lemma InRangeFinds(keys: set<Bytes>, entity: Bytes, start: U64, end: U64, other: Bytes, timestamp: U64)
    requires IsEntity(entity) && IsEntity(other)
    requires TemporalKey(other, timestamp) in keys
    ensures TemporalKey(other, timestamp) in InRange(keys, entity, start, end)
       <==> other == entity && start <= timestamp < end
    ensures Ascending(InRange(keys, entity, start, end))
  {
    PrefixIdentifiesEntity(entity, other, timestamp);
    TemporalKeyOrder(entity, start, timestamp);
    TemporalKeyOrder(entity, timestamp, end);
    if other == entity && AtMost(TemporalKey(entity, start), TemporalKey(entity, timestamp)) && start > timestamp {
      TemporalKeyIsInjective(entity, start, entity, timestamp);
    }
  }

  /** The first key comes before the second in the order asked for. */
  predicate Precedes(order: TemporalOrder, a: Bytes, b: Bytes) {
    if order.ReverseChronological? then Less(b, a) else Less(a, b)
  }

  /** A range query returns, in the order asked for and up to the limit, temporal keys of its entity
      with a timestamp from start up to but not including end; such a key is missing exactly if the
      limit is reached by ones that come before it. */
  lemma QueryRangeFinds(
      keys: set<Bytes>, entity: Bytes, start: U64, end: U64, order: TemporalOrder, limit: nat, other: Bytes,
      timestamp: U64)
    requires IsEntity(entity) && IsEntity(other)
    requires TemporalKey(other, timestamp) in keys
    ensures var key, found := TemporalKey(other, timestamp), QueryRange(keys, entity, start, end, order, limit);
      && |found| <= limit
      && (forall i, j :: 0 <= i < j < |found| ==> Precedes(order, found[i], found[j]))
      && (key in found <==> && other == entity && start <= timestamp < end
                            && !(|found| == limit && forall k :: k in found ==> Precedes(order, k, key)))
  {
    hide InRange, TemporalKey, Less, IsEntity;
    var key, all := TemporalKey(other, timestamp), InRange(keys, entity, start, end);
    InRangeFinds(keys, entity, start, end, other, timestamp);
    var ordered := if order.ReverseChronological? then Reversed(all) else all;
    assert forall i, j :: 0 <= i < j < |ordered| ==> Precedes(order, ordered[i], ordered[j]);
    assert key in ordered <==> key in all by { SameKeys(all, key); }
    CutAt(ordered, order, limit, key);
  }

  lemma SameKeys(keys: seq<Bytes>, key: Bytes)
    ensures key in Reversed(keys) <==> key in keys
  {
    if key in keys {
      var i :| 0 <= i < |keys| && keys[i] == key;
      assert Reversed(keys)[|keys| - 1 - i] == key;
    }
  }

  /** A key of an ordered sequence is cut off exactly if what is left is full and comes before it. */
  lemma CutAt(ordered: seq<Bytes>, order: TemporalOrder, limit: nat, key: Bytes)
    requires forall i, j :: 0 <= i < j < |ordered| ==> Precedes(order, ordered[i], ordered[j])
    ensures var found := Take(ordered, limit);
      key in found <==> key in ordered && !(|found| == limit && forall k :: k in found ==> Precedes(order, k, key))
  {
    hide Less;
    var found := Take(ordered, limit);
    if key in found {
      LessIrreflexive(key);
      assert !Precedes(order, key, key);
    } else if key in ordered {
      var j :| 0 <= j < |ordered| && ordered[j] == key;
      assert forall i :: 0 <= i < |found| ==> found[i] == ordered[i];
      forall k | k in found ensures Precedes(order, k, key) {
        var i :| 0 <= i < |found| && found[i] == k;
        assert ordered[i] == k;
      }
    }
  }

  // ---------------------------------------------------------------------------------------
  //  list_entities
  // ---------------------------------------------------------------------------------------

  /** Everything before the first separator, if there is one. */
  function EntityOf(key: Bytes): (entity: Option<Bytes>)
    ensures match entity
      case Some(e) => IsEntity(e) && TemporalPrefix(e) <= key
      case None => KEY_SEPARATOR !in key
  {
    if key == [] then None
    else if key[0] == KEY_SEPARATOR then Some([])
    else
      match EntityOf(key[1..])
      case Some(e) => Some([key[0]] + e)
      case None => None
  }

  lemma {:induction false} EntityOfPrefixed(entity: Bytes, key: Bytes)
    requires IsEntity(entity) && TemporalPrefix(entity) <= key
    ensures EntityOf(key) == Some(entity)
    decreases |entity|
  {
    assert key[0] == TemporalPrefix(entity)[0];
    if entity != [] {
      assert TemporalPrefix(entity)[1..] == TemporalPrefix(entity[1..]);
      EntityOfPrefixed(entity[1..], key[1..]);
      assert entity == [entity[0]] + entity[1..];
    }
  }

  /** The keys of an entity are consecutive in any scan, also when its id is a prefix of another's. */
  lemma EntityKeysAreContiguous(a: Bytes, b: Bytes, c: Bytes)
    requires AtMost(a, b) && AtMost(b, c)
    requires EntityOf(a).Some? && EntityOf(a) == EntityOf(c)
    ensures EntityOf(b) == EntityOf(a)
  {
    var entity := EntityOf(a).value;
    PrefixIsContiguous(TemporalPrefix(entity), a, b, c);
    EntityOfPrefixed(entity, b);
  }

  predicate Listed(isUtf8: Bytes -> bool, key: Bytes, entity: Bytes) {
    EntityOf(key) == Some(entity) && isUtf8(entity)
  }

  predicate ListedBefore(isUtf8: Bytes -> bool, scan: seq<Bytes>, i: nat, entity: Bytes)
    requires i <= |scan|
  {
    exists p :: 0 <= p < i && Listed(isUtf8, scan[p], entity)
  }

  /** If any earlier key was listed under the entity of key i, then the last listed one was. */
  lemma LastListedDecides(isUtf8: Bytes -> bool, scan: seq<Bytes>, last: int, i: nat, entity: Bytes)
    requires Ascending(scan) && -1 <= last < i < |scan|
    requires last >= 0 ==> EntityOf(scan[last]).Some?
    requires forall p, e :: last < p < i ==> !Listed(isUtf8, scan[p], e)
    requires EntityOf(scan[i]) == Some(entity)
    requires ListedBefore(isUtf8, scan, i, entity)
    ensures last >= 0 && EntityOf(scan[last]) == Some(entity)
  {
    var p :| 0 <= p < i && Listed(isUtf8, scan[p], entity);
    assert p <= last;
    EntityKeysAreContiguous(scan[p], scan[last], scan[i]);
  }

  /** list_entities: only the entity seen last is remembered, yet each entity comes out once. */
  method ListEntities(keys: set<Bytes>, isUtf8: Bytes -> bool) returns (entities: seq<Bytes>)
    ensures forall e :: e in entities <==> exists k :: k in keys && Listed(isUtf8, k, e)
    ensures forall i, j :: 0 <= i < j < |entities| ==> entities[i] != entities[j]
  {
    var all := Sorted(keys);
    entities := ListScanned(all, isUtf8);
    forall e ensures e in entities <==> exists k :: k in keys && Listed(isUtf8, k, e) {
      if k :| k in keys && Listed(isUtf8, k, e) {
        assert k in all;
      }
    }
  }

  method ListScanned(all: seq<Bytes>, isUtf8: Bytes -> bool) returns (entities: seq<Bytes>)
    requires Ascending(all)
    ensures forall e :: e in entities <==> ListedBefore(isUtf8, all, |all|, e)
    ensures forall i, j :: 0 <= i < j < |entities| ==> entities[i] != entities[j]
  {
    entities := [];
    var lastEntity: Option<Bytes> := None;
    ghost var lastListed := -1;
    for i := 0 to |all|
      invariant forall e :: e in entities <==> ListedBefore(isUtf8, all, i, e)
      invariant forall i, j :: 0 <= i < j < |entities| ==> entities[i] != entities[j]
      invariant -1 <= lastListed < i
      invariant lastEntity == if lastListed < 0 then None else EntityOf(all[lastListed])
      invariant lastListed >= 0 ==> lastEntity.Some?
      invariant forall p, e :: lastListed < p < i ==> !Listed(isUtf8, all[p], e)
    {
      match EntityOf(all[i])
      case None =>
      case Some(entity) =>
        if isUtf8(entity) {
          if lastEntity != Some(entity) {
            if ListedBefore(isUtf8, all, i, entity) {
              LastListedDecides(isUtf8, all, lastListed, i, entity);
              assert false;
            }
            lastEntity := Some(entity);
            entities := entities + [entity];
          }
          lastListed := i;
        }
    }
  }

  // ---------------------------------------------------------------------------------------
  //  Tombstones
  // ---------------------------------------------------------------------------------------

  /** "tombstone:" */
  const TOMBSTONE_PREFIX: Bytes := [0x74, 0x6F, 0x6D, 0x62, 0x73, 0x74, 0x6F, 0x6E, 0x65, 0x3A]
  const COLON: Byte := 0x3A

  function TombstoneKey(timestamp: U64, id: Bytes): Bytes {
    TOMBSTONE_PREFIX + EncodeU64(timestamp) + [COLON] + id
  }

  /** The timestamp `gc_tombstones` reads from the eight bytes after the prefix. */
  function TombstoneTime(key: Bytes): nat
    requires TOMBSTONE_PREFIX <= key && |key| >= |TOMBSTONE_PREFIX| + 8
  {
    FromBigEndian(key[|TOMBSTONE_PREFIX|..|TOMBSTONE_PREFIX| + 8])
  }

  lemma TombstoneTimeRoundTrip(timestamp: U64, id: Bytes)
    ensures TombstoneTime(TombstoneKey(timestamp, id)) == timestamp
  {
    var key := TombstoneKey(timestamp, id);
    assert key[|TOMBSTONE_PREFIX|..|TOMBSTONE_PREFIX| + 8] == EncodeU64(timestamp);
    U64Fits(timestamp);
    BigEndianRoundTrip(timestamp, 8);
  }

  predicate Expired(key: Bytes, cutoff: nat) {
    TOMBSTONE_PREFIX <= key && |key| >= |TOMBSTONE_PREFIX| + 8 && TombstoneTime(key) < cutoff
  }

  lemma TombstoneExpires(timestamp: U64, id: Bytes, cutoff: nat)
    ensures Expired(TombstoneKey(timestamp, id), cutoff) <==> timestamp < cutoff
  {
    TombstoneTimeRoundTrip(timestamp, id);
  }

  function SaturatingSub(x: nat, y: nat): nat {
    if x >= y then x - y else 0
  }

  class MetaFamily<V> {
    var entries: map<Bytes, V>

    constructor (entries: map<Bytes, V>)
      ensures this.entries == entries
    {
      this.entries := entries;
    }

    /** gc_tombstones */
    method GcTombstones(now: U64, ttl: U64) returns (count: nat)
      modifies this
      ensures forall k :: k in entries <==> k in old(entries) && !Expired(k, SaturatingSub(now, ttl))
      ensures forall k :: k in entries ==> entries[k] == old(entries)[k]
      ensures count == |old(entries)| - |entries|
    {
      hide Expired, Sorted, TombstoneTime;
      var cutoff := SaturatingSub(now, ttl);
      var scan := Sorted(set k | k in entries && TOMBSTONE_PREFIX <= k);
      var deletes: seq<Bytes> := [];
      for i := 0 to |scan|
        invariant forall k :: k in deletes <==> k in scan[..i] && Expired(k, cutoff)
        invariant NoRepeats(deletes)
        invariant entries == old(entries)
      {
        var key := scan[i];
        assert key in scan;
        assert scan[..i + 1] == scan[..i] + [key];
        ExpiredIff(key, cutoff);
        if |key| >= |TOMBSTONE_PREFIX| + 8 && TombstoneTime(key) < cutoff {
          NotRepeated(scan, i);
          deletes := deletes + [key];
        }
      }
      assert scan[..|scan|] == scan;
      forall k ensures Expired(k, cutoff) ==> TOMBSTONE_PREFIX <= k { ExpiredIff(k, cutoff); }
      count := |deletes|;
      DistinctCount(deletes);
      ghost var gone := set k | k in deletes;
      entries := map k | k in entries && k !in deletes :: entries[k];
      assert entries.Keys == old(entries).Keys - gone;
    }
  }

  predicate NoRepeats(s: seq<Bytes>) {
    forall i, j :: 0 <= i < j < |s| ==> s[i] != s[j]
  }

  lemma ExpiredIff(key: Bytes, cutoff: nat)
    ensures Expired(key, cutoff)
       <==> TOMBSTONE_PREFIX <= key && |key| >= |TOMBSTONE_PREFIX| + 8 && TombstoneTime(key) < cutoff
  {}

  lemma NotRepeated(scan: seq<Bytes>, i: nat)
    requires Ascending(scan) && i < |scan|
    ensures scan[i] !in scan[..i]
  {
    LessIrreflexive(scan[i]);
  }

  lemma {:induction false} DistinctCount(s: seq<Bytes>)
    requires NoRepeats(s)
    ensures |set k | k in s| == |s|
  {
    if s != [] {
      var init, last := s[..|s| - 1], s[|s| - 1];
      DistinctCount(init);
      assert (set k | k in s) == (set k | k in init) + {last};
    }
  }

  /** A tombstone written at a time is kept by a collection exactly if its time to live has not run out:
      as long as the current time is no later than that time plus the time to live. */
  lemma TombstoneStaysIff(timestamp: U64, id: Bytes, ttl: U64, now: U64)
    ensures !Expired(TombstoneKey(timestamp, id), SaturatingSub(now, ttl)) <==> now <= timestamp + ttl
  {
    hide Expired;
    TombstoneExpires(timestamp, id, SaturatingSub(now, ttl));
  }
}
