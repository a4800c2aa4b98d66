/** The data of the unordered family: one Ruby `Hash` of item id to item per
    bucket, and the `@buckets` hash of such hashes that both
    `database/hash.rb` and `in_memory.rb` keep.

    A Ruby `Hash` remembers insertion order, so a bucket is a sequence of
    entries whose ids are pairwise distinct; writing an existing id replaces
    its value where it stands, writing a new id appends. */
module UnorderedStore {
  import opened Common

  datatype Entry = Entry(id: ItemId, item: Item)

  type Bucket = seq<Entry>

  /** No item id occurs twice: the bucket is a map. */
  predicate UniqueIds(b: Bucket) {
    forall i, j :: 0 <= i < j < |b| ==> b[i].id != b[j].id
  }

  /** `bucket.keys`, in insertion order. */
  function Ids(b: Bucket): (ids: seq<ItemId>)
    ensures |ids| == |b|
    ensures forall j :: 0 <= j < |b| ==> ids[j] == b[j].id
  {
    if b == [] then [] else [b[0].id] + Ids(b[1..])
  }

  /** `bucket.values`, in insertion order of their ids. */
  function Values(b: Bucket): seq<Item> {
    seq(|b|, k requires 0 <= k < |b| => b[k].item)
  }

  lemma ValuesCons(b: Bucket)
    requires b != []
    ensures Values(b) == [b[0].item] + Values(b[1..])
  {
  }

  /** `bucket[item_id]`: the item stored under `k`, if any. */
  function Lookup(b: Bucket, k: ItemId): (r: Option<Item>)
    ensures r.Some? <==> k in Ids(b)
  {
    if b == [] then None
    else if b[0].id == k then Some(b[0].item)
    else Lookup(b[1..], k)
  }

  /** `bucket[item_id] = item`: overwrite in place, or append a new entry. */
  function Upsert(b: Bucket, k: ItemId, v: Item): (r: Bucket)
    ensures Ids(r) == if k in Ids(b) then Ids(b) else Ids(b) + [k]
  {
    if b == [] then [Entry(k, v)]
    else if b[0].id == k then [Entry(k, v)] + b[1..]
    else
      var rest := Upsert(b[1..], k, v);
      assert Ids(b) == [b[0].id] + Ids(b[1..]);
      assert ([b[0]] + rest)[1..] == rest;
      [b[0]] + rest
  }

  /** After the write, `k` holds `v` and every other id holds what it held. */
  lemma {:induction false} UpsertLookup(b: Bucket, k: ItemId, v: Item, x: ItemId)
    ensures Lookup(Upsert(b, k, v), x) == if x == k then Some(v) else Lookup(b, x)
  {
    if b != [] && b[0].id != k {
      UpsertLookup(b[1..], k, v, x);
      assert ([b[0]] + Upsert(b[1..], k, v))[1..] == Upsert(b[1..], k, v);
    }
  }

  /** Writing keeps the item ids of a bucket distinct. */
  lemma UpsertKeepsUnique(b: Bucket, k: ItemId, v: Item)
    requires UniqueIds(b)
    ensures UniqueIds(Upsert(b, k, v))
  {
    var r := Upsert(b, k, v);
    forall i, j | 0 <= i < j < |r| ensures r[i].id != r[j].id {
      assert Ids(r)[i] == r[i].id && Ids(r)[j] == r[j].id;
      if k !in Ids(b) && j == |b| {
        assert r[i].id == Ids(b)[i];
      } else {
        assert Ids(r)[i] == Ids(b)[i] && Ids(r)[j] == Ids(b)[j];
      }
    }
  }

  /** Writing an id that is already present keeps the size; a new id adds
      exactly one entry. */
  lemma UpsertSize(b: Bucket, k: ItemId, v: Item)
    ensures |Upsert(b, k, v)| == if k in Ids(b) then |b| else |b| + 1
  {
    assert |Ids(Upsert(b, k, v))| == |Upsert(b, k, v)|;
  }

  /** Entry by entry: the write replaces the entry holding `k` where it
      stands and leaves every other entry in place; a new id goes last. */
  lemma {:induction false} UpsertAt(b: Bucket, k: ItemId, v: Item)
    requires UniqueIds(b)
    ensures var r := Upsert(b, k, v);
      && (forall j :: 0 <= j < |b| ==> r[j] == if b[j].id == k then Entry(k, v) else b[j])
      && (k !in Ids(b) ==> r[|b|] == Entry(k, v))
  {
    var r := Upsert(b, k, v);
    if k !in Ids(b) {
      UpsertNew(b, k, v);
      forall j | 0 <= j < |b| ensures b[j].id != k {
        assert Ids(b)[j] == b[j].id;
      }
    } else if b[0].id == k {
      forall j | 0 < j < |b| ensures r[j] == b[j] && b[j].id != k {
        assert b[0].id != b[j].id;
      }
    } else {
      assert Ids(b) == [b[0].id] + Ids(b[1..]);
      UpsertAt(b[1..], k, v);
      assert r == [b[0]] + Upsert(b[1..], k, v);
      forall j | 0 < j < |b| ensures r[j] == if b[j].id == k then Entry(k, v) else b[j] {
        assert b[1..][j - 1] == b[j];
      }
    }
  }

  /** Writing an id the bucket does not hold appends it. */
  lemma {:induction false} UpsertNew(b: Bucket, k: ItemId, v: Item)
    requires k !in Ids(b)
    ensures Upsert(b, k, v) == b + [Entry(k, v)]
  {
    if b != [] {
      assert Ids(b) == [b[0].id] + Ids(b[1..]);
      UpsertNew(b[1..], k, v);
      assert [b[0]] + (b[1..] + [Entry(k, v)]) == b + [Entry(k, v)];
    }
  }

  /** Appending an entry appends its id to the keys and its item to the values. */
  lemma AppendEntry(b: Bucket, k: ItemId, v: Item)
    ensures Ids(b + [Entry(k, v)]) == Ids(b) + [k]
    ensures Values(b + [Entry(k, v)]) == Values(b) + [v]
  {
  }

  /** In a bucket followed by further distinct entries, the first further
      id is not yet in the bucket. */
  lemma FirstAddIsNew(b: Bucket, adds: seq<Entry>)
    requires adds != [] && UniqueIds(b + adds)
    ensures adds[0].id !in Ids(b)
  {
    assert (b + adds)[|b|] == adds[0];
    forall j | 0 <= j < |b| ensures Ids(b)[j] != adds[0].id {
      assert (b + adds)[j] == b[j];
    }
  }

  /** The bucket after writing `adds` in order. */
  function UpsertAll(b: Bucket, adds: seq<Entry>): Bucket
    decreases |adds|
  {
    if adds == [] then b else UpsertAll(Upsert(b, adds[0].id, adds[0].item), adds[1..])
  }

  /** The item written last under `k` in `adds`, if `k` was written at all. */
  function LastWrite(adds: seq<Entry>, k: ItemId): Option<Item>
    decreases |adds|
  {
    if adds == [] then None
    else match LastWrite(adds[1..], k)
      case Some(v) => Some(v)
      case None => if adds[0].id == k then Some(adds[0].item) else None
  }

  /** After any sequence of writes, every id holds the item written to it
      last; ids never written keep what they held before. */
  lemma {:induction false} LastWriteWins(b: Bucket, adds: seq<Entry>, k: ItemId)
    ensures Lookup(UpsertAll(b, adds), k) == match LastWrite(adds, k)
      case Some(v) => Some(v)
      case None => Lookup(b, k)
    decreases |adds|
  {
    if adds != [] {
      LastWriteWins(Upsert(b, adds[0].id, adds[0].item), adds[1..], k);
      UpsertLookup(b, adds[0].id, adds[0].item, k);
    }
  }

  /** The ids of `seen` followed by the ids of `adds` that are not yet
      present, each at its first write: the order a Ruby `Hash` keeps. */
  function FirstInserted(seen: seq<ItemId>, adds: seq<Entry>): seq<ItemId>
    decreases |adds|
  {
    if adds == [] then seen
    else FirstInserted(if adds[0].id in seen then seen else seen + [adds[0].id], adds[1..])
  }

  /** After any sequence of writes, the bucket lists its ids in the order
      they were first written; overwriting never moves an id. */
  lemma {:induction false} UpsertAllOrder(b: Bucket, adds: seq<Entry>)
    ensures Ids(UpsertAll(b, adds)) == FirstInserted(Ids(b), adds)
    decreases |adds|
  {
    if adds != [] {
      UpsertAllOrder(Upsert(b, adds[0].id, adds[0].item), adds[1..]);
    }
  }

  /** Some entry of `adds` writes id `k`. */
  predicate Writes(adds: seq<Entry>, k: ItemId) {
    exists j :: 0 <= j < |adds| && adds[j].id == k
  }

  /** Writes never create a second entry for one id, and the ids present
      afterwards are those present before plus those written. */
  lemma {:induction false} UpsertAllIds(b: Bucket, adds: seq<Entry>)
    requires UniqueIds(b)
    ensures UniqueIds(UpsertAll(b, adds))
    ensures forall k :: k in Ids(UpsertAll(b, adds)) <==> k in Ids(b) || Writes(adds, k)
    decreases |adds|
  {
    if adds != [] {
      var b' := Upsert(b, adds[0].id, adds[0].item);
      UpsertKeepsUnique(b, adds[0].id, adds[0].item);
      UpsertAllIds(b', adds[1..]);
      forall k ensures Writes(adds, k) <==> adds[0].id == k || Writes(adds[1..], k) {
        if Writes(adds, k) {
          var j :| 0 <= j < |adds| && adds[j].id == k;
          if j > 0 { assert adds[1..][j - 1].id == k; }
        }
        if Writes(adds[1..], k) {
          var j :| 0 <= j < |adds[1..]| && adds[1..][j].id == k;
          assert adds[j + 1].id == k;
        }
      }
    }
  }

  /** What `@buckets[bucket_id]` holds, reading a missing entry as `{}`. */
  function Stored(buckets: map<BucketId, Bucket>, id: BucketId): Bucket {
    if id in buckets then buckets[id] else []
  }

  /** `@buckets[bucket_id] ||= {}`: creates an empty entry for an untouched
      bucket and keeps what the bucket holds. */
  function Materialize(buckets: map<BucketId, Bucket>, id: BucketId): (r: map<BucketId, Bucket>)
    ensures id in r && r.Keys == buckets.Keys + {id}
    ensures Stored(r, id) == Stored(buckets, id)
  {
    if id in buckets then buckets else buckets[id := []]
  }

  /** Creating the entry changes no bucket's contents. */
  lemma MaterializeKeeps(buckets: map<BucketId, Bucket>, id: BucketId)
    ensures forall x :: Stored(Materialize(buckets, id), x) == Stored(buckets, x)
  {
  }

  /** `@buckets[bucket_id] ||= {}; @buckets[bucket_id][item_id] = item`. */
  function Put(buckets: map<BucketId, Bucket>, id: BucketId, k: ItemId, v: Item): (r: map<BucketId, Bucket>)
    ensures id in r && r.Keys == buckets.Keys + {id}
    ensures Stored(r, id) == Upsert(Stored(buckets, id), k, v)
  {
    buckets[id := Upsert(Stored(buckets, id), k, v)]
  }

  /** The write changes no other bucket. */
  lemma PutKeeps(buckets: map<BucketId, Bucket>, id: BucketId, k: ItemId, v: Item)
    ensures forall x :: x != id ==> Stored(Put(buckets, id, k, v), x) == Stored(buckets, x)
  {
  }

  /** Every stored bucket is a map. */
  predicate AllUnique(buckets: map<BucketId, Bucket>) {
    forall x :: x in buckets ==> UniqueIds(buckets[x])
  }

  /** Creating an entry and writing keep every stored bucket a map. */
  lemma PutKeepsUnique(buckets: map<BucketId, Bucket>, id: BucketId, k: ItemId, v: Item)
    requires AllUnique(buckets)
    ensures AllUnique(Materialize(buckets, id))
    ensures AllUnique(Put(buckets, id, k, v))
  {
    UpsertKeepsUnique(Stored(buckets, id), k, v);
  }
}
