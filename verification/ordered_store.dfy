/** The data of the ordered family (`lib/em-bucketer/ordered/database/hash.rb`):
    `@buckets` maps a bucket id to a Ruby `Array` of items in the order they
    were added, or to `nil` after a pop that asked for more items than the
    bucket held. `bucket_by_id` reads both a missing entry and `nil` as an
    empty array and stores that array. */
module OrderedStore {
  import opened Common

  /** One entry of `@buckets`: `Some(items)` for an array, `None` for `nil`. */
  type Slot = Option<seq<Item>>

  /** A slot as `bucket_by_id` reads it: `nil` is an empty array. */
  function Read(slot: Slot): seq<Item> {
    if slot.Some? then slot.value else []
  }

  /** The items `bucket_by_id` would hand out. */
  function Items(buckets: map<BucketId, Slot>, id: BucketId): seq<Item> {
    if id in buckets then Read(buckets[id]) else []
  }

  /** The store after `bucket_by_id(bucket_id)`, i.e. `@buckets[bucket_id] ||= []`:
      the entry becomes an array, no bucket's items change. */
  function Touch(buckets: map<BucketId, Slot>, id: BucketId): (r: map<BucketId, Slot>)
    ensures r.Keys == buckets.Keys + {id}
    ensures r[id] == Some(Items(buckets, id))
    ensures forall x :: x in buckets && x != id ==> r[x] == buckets[x]
  {
    if id in buckets && buckets[id].Some? then buckets else buckets[id := Some([])]
  }

  /** The store after `bucket_by_id(bucket_id) << item`. */
  function Append(buckets: map<BucketId, Slot>, id: BucketId, item: Item): (r: map<BucketId, Slot>)
    ensures Items(r, id) == Items(buckets, id) + [item]
    ensures forall x :: x != id ==> Items(r, x) == Items(buckets, x)
  {
    buckets[id := Some(Items(buckets, id) + [item])]
  }

  /** `all.first(count)` for a count that is not negative. */
  function Taken(all: seq<Item>, count: nat): seq<Item> {
    if count <= |all| then all[..count] else all
  }

  /** `all[count..-1]` for a count that is not negative: the rest, which is
      `[]` when `count` is the size and `nil` when it is past the end. */
  function Left(all: seq<Item>, count: nat): Slot {
    if count <= |all| then Some(all[count..]) else None
  }

  /** What a pop takes and what it leaves, read back through
      `bucket_by_id`, are the bucket split in two: the taken part is the
      first `min(count, size)` items in the order they were added. */
  lemma PopSplit(all: seq<Item>, count: nat)
    ensures Taken(all, count) + Read(Left(all, count)) == all
    ensures |Taken(all, count)| == if count <= |all| then count else |all|
    ensures count > |all| <==> Left(all, count).None?
  {
    if count <= |all| {
      assert all[..count] + all[count..] == all;
    }
  }
}
