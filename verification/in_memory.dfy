/** The standalone in-memory bucketer (`lib/em-bucketer/in_memory.rb`): the
    unordered bucket semantics with its own `@buckets` hash of hashes, a
    full-observer list and no timers. Its backend calls complete at once and
    never fail, so its operations take no fault.

    `Engine` is the state as a value with the operations as member
    functions; class `InMemory` performs them in place. The engine is also
    proved to behave exactly like the unordered engine of `base.rb` run
    without a max age and without timeout-observers. */
module InMemoryBucketer {
  import opened Common
  import opened UnorderedStore
  import UnorderedBucketer

  /** `BUCKET_THRESHOLD_SIZE_DEFAULT`. */
  const BucketThresholdSizeDefault: int := 1000
  /** `BUCKET_MAX_AGE_DEFAULT`, in seconds; stored, never consulted. */
  const BucketMaxAgeDefault: int := 3600

  datatype Engine = Engine(
    threshold: int,                 // @bucket_threshold_size
    maxAge: Option<int>,            // @bucket_max_age; None is Ruby's nil
    buckets: map<BucketId, Bucket>, // @buckets
    fullCallbacks: seq<Observer>,   // @on_bucket_full_callbacks
    log: seq<Call>)                 // every observer call so far
  {
    function Contents(id: BucketId): Bucket {
      Stored(buckets, id)
    }

    /** The private `check_bucket_full` through `bucket_full?`. */
    function CheckBucketFull(id: BucketId): Engine {
      var e := this.(buckets := Materialize(buckets, id));
      if |Contents(id)| >= threshold then e.(log := log + Broadcast(fullCallbacks, id)) else e
    }

    /** `add_item`: persist (which always succeeds), then check fullness. */
    function AddItem(id: BucketId, itemId: ItemId, item: Item): Engine {
      this.(buckets := Put(buckets, id, itemId, item)).CheckBucketFull(id)
    }

    function OnBucketFull(observer: Observer): Engine {
      this.(fullCallbacks := fullCallbacks + [observer])
    }

    /** `get_bucket`: the bucket's values, creating an empty entry for an
        untouched bucket. */
    function GetBucket(id: BucketId): (Engine, seq<Item>) {
      (this.(buckets := Materialize(buckets, id)), Values(Contents(id)))
    }

    /** `empty_bucket`: the bucket becomes `{}`. */
    function EmptyBucket(id: BucketId): Engine {
      this.(buckets := buckets[id := []])
    }

    /** `get_and_empty_bucket`: read, then empty, then yield what was read. */
    function GetAndEmptyBucket(id: BucketId): (Engine, seq<Item>) {
      var (read, contents) := GetBucket(id);
      (read.EmptyBucket(id), contents)
    }
  }

  /** `initialize(bucket_threshold_size:, bucket_max_age:)`. */
  function Setup(threshold: int, maxAge: Option<int>): Engine {
    Engine(threshold, maxAge, map[], [], [])
  }

  /** `InMemory.new` with both keywords omitted: threshold 1000, max age
      3600 seconds, no observers, and every bucket reads empty. */
  function Default(): (e: Engine)
    ensures e.threshold == 1000 && e.maxAge == Some(3600)
    ensures e.fullCallbacks == [] && e.log == []
    ensures forall id :: e.Contents(id) == []
  {
    Setup(BucketThresholdSizeDefault, Some(BucketMaxAgeDefault))
  }

  // ---------------------------------------------------------------------
  // Properties of the operations
  // ---------------------------------------------------------------------

  /** Overwriting an id already in the bucket keeps its size and its id
      order and replaces the value; adding a new id appends it. Other
      buckets are untouched. */
  lemma AddItemUpserts(e: Engine, id: BucketId, k: ItemId, v: Item)
    requires UniqueIds(e.Contents(id))
    ensures var c := e.AddItem(id, k, v).Contents(id);
      && c == Upsert(e.Contents(id), k, v)
      && Lookup(c, k) == Some(v)
      && (k in Ids(e.Contents(id)) ==> |c| == |e.Contents(id)| && Ids(c) == Ids(e.Contents(id)))
      && (k !in Ids(e.Contents(id)) ==> c == e.Contents(id) + [Entry(k, v)])
      && UniqueIds(c)
    ensures forall x :: x != id ==> e.AddItem(id, k, v).Contents(x) == e.Contents(x)
  {
    var stored := Put(e.buckets, id, k, v);
    assert e.AddItem(id, k, v).buckets == Materialize(stored, id);
    assert Stored(Materialize(stored, id), id) == Stored(stored, id);
    forall x | x != id ensures e.AddItem(id, k, v).Contents(x) == e.Contents(x) {
      assert Stored(Materialize(stored, id), x) == Stored(stored, x);
    }
    UpsertSize(e.Contents(id), k, v);
    UpsertLookup(e.Contents(id), k, v, k);
    UpsertKeepsUnique(e.Contents(id), k, v);
    if k !in Ids(e.Contents(id)) {
      UpsertNew(e.Contents(id), k, v);
    }
  }

  /** The threshold rule: after each add, every full-observer is called
      once, in registration order, exactly when the bucket holds at least
      the threshold. */
  lemma AddItemThreshold(e: Engine, id: BucketId, k: ItemId, v: Item)
    ensures var e' := e.AddItem(id, k, v);
      e'.log == e.log + (if |Upsert(e.Contents(id), k, v)| >= e.threshold then Broadcast(e.fullCallbacks, id) else [])
  {
    var stored := Put(e.buckets, id, k, v);
    assert Stored(stored, id) == Upsert(e.Contents(id), k, v);
  }

  /** `get_bucket` yields the values in insertion order and changes no
      bucket's contents and no observer state; an untouched bucket yields
      `[]` and gains an empty entry. */
  lemma GetBucketReadOnly(e: Engine, id: BucketId)
    ensures var (e', r) := e.GetBucket(id);
      && r == Values(e.Contents(id))
      && (forall x :: e'.Contents(x) == e.Contents(x))
      && id in e'.buckets && (id !in e.buckets ==> r == [])
      && e'.log == e.log && e'.fullCallbacks == e.fullCallbacks
  {
  }

  /** After `empty_bucket` the bucket reads `[]`; other buckets keep their
      contents and emptying again changes nothing. */
  lemma EmptyThenGet(e: Engine, id: BucketId)
    ensures e.EmptyBucket(id).GetBucket(id).1 == []
    ensures forall x :: x != id ==> e.EmptyBucket(id).Contents(x) == e.Contents(x)
    ensures e.EmptyBucket(id).EmptyBucket(id) == e.EmptyBucket(id)
  {
    assert e.EmptyBucket(id).buckets[id := []] == e.EmptyBucket(id).buckets;
  }

  /** `get_and_empty_bucket` yields what the bucket held and leaves it
      empty, touching no other bucket. */
  lemma GetAndEmptyBucketSpec(e: Engine, id: BucketId)
    ensures var (e', r) := e.GetAndEmptyBucket(id);
      && r == Values(e.Contents(id)) && e'.Contents(id) == []
      && (forall x :: x != id ==> e'.Contents(x) == e.Contents(x))
      && e'.log == e.log
  {
  }

  /** `add_item` of each entry of `adds` in turn. */
  function AddAll(e: Engine, id: BucketId, adds: seq<Entry>): Engine
    decreases |adds|
  {
    if adds == [] then e else AddAll(e.AddItem(id, adds[0].id, adds[0].item), id, adds[1..])
  }

  /** After any adds to one bucket, the ids are in the order they were
      first added, each holding the value added last; a bucket that listed
      each id once still does. */
  lemma {:induction false} AddAllOrder(e: Engine, id: BucketId, adds: seq<Entry>)
    ensures AddAll(e, id, adds).Contents(id) == UpsertAll(e.Contents(id), adds)
    ensures UniqueIds(e.Contents(id)) ==> UniqueIds(AddAll(e, id, adds).Contents(id))
    ensures Ids(AddAll(e, id, adds).Contents(id)) == FirstInserted(Ids(e.Contents(id)), adds)
    ensures forall k ::
              Lookup(AddAll(e, id, adds).Contents(id), k)
              == if LastWrite(adds, k).Some? then LastWrite(adds, k) else Lookup(e.Contents(id), k)
    decreases |adds|
  {
    if adds != [] {
      var e' := e.AddItem(id, adds[0].id, adds[0].item);
      var stored := Put(e.buckets, id, adds[0].id, adds[0].item);
      assert Stored(Materialize(stored, id), id) == Stored(stored, id);
      AddAllOrder(e', id, adds[1..]);
    }
    UpsertAllOrder(e.Contents(id), adds);
    if UniqueIds(e.Contents(id)) {
      UpsertAllIds(e.Contents(id), adds);
    }
    forall k ensures Lookup(UpsertAll(e.Contents(id), adds), k)
                     == if LastWrite(adds, k).Some? then LastWrite(adds, k) else Lookup(e.Contents(id), k)
    {
      LastWriteWins(e.Contents(id), adds, k);
    }
  }

  /** Registering a full-observer appends it: the earlier ones keep their
      order and are still called first. */
  lemma RegistrationAppends(e: Engine, o: Observer, id: BucketId)
    ensures e.OnBucketFull(o).fullCallbacks == e.fullCallbacks + [o]
    ensures e.OnBucketFull(o).buckets == e.buckets && e.OnBucketFull(o).log == e.log
    ensures Broadcast(e.OnBucketFull(o).fullCallbacks, id) == Broadcast(e.fullCallbacks, id) + [Call(o, id)]
  {
    BroadcastAppend(e.fullCallbacks, [o], id);
  }

  // ---------------------------------------------------------------------
  // Agreement with the base.rb engine
  // ---------------------------------------------------------------------

  /** `m` and `u` hold the same buckets, threshold, full-observers and
      calls, and `u` has no max age and no timeout-observer. */
  predicate Agree(m: Engine, u: UnorderedBucketer.Engine) {
    && m.threshold == u.threshold && m.buckets == u.buckets
    && m.fullCallbacks == u.fullCallbacks && m.log == u.log
    && u.maxAge.None? && u.timeoutCallbacks == []
  }

  /** Each operation of the standalone class does what the `base.rb` engine
      does with a backend that never fails. */
  lemma AddItemAgrees(m: Engine, u: UnorderedBucketer.Engine, id: BucketId, k: ItemId, v: Item)
    requires Agree(m, u)
    ensures Agree(m.AddItem(id, k, v), u.AddItem(id, k, v, None).0)
  {
  }

  lemma GetBucketAgrees(m: Engine, u: UnorderedBucketer.Engine, id: BucketId)
    requires Agree(m, u)
    ensures Agree(m.GetBucket(id).0, u.GetBucket(id, None).0)
    ensures Ok(m.GetBucket(id).1) == u.GetBucket(id, None).1
  {
  }

  lemma EmptyBucketAgrees(m: Engine, u: UnorderedBucketer.Engine, id: BucketId)
    requires Agree(m, u)
    ensures Agree(m.EmptyBucket(id), u.EmptyBucket(id, None).0)
    ensures Agree(m.GetAndEmptyBucket(id).0, u.GetAndEmptyBucket(id, None, None).0)
    ensures Ok(m.GetAndEmptyBucket(id).1) == u.GetAndEmptyBucket(id, None, None).1
  {
  }

  lemma OnBucketFullAgrees(m: Engine, u: UnorderedBucketer.Engine, o: Observer)
    requires Agree(m, u)
    ensures Agree(m.OnBucketFull(o), u.OnBucketFull(o))
  {
  }

  lemma {:induction false} AddAllAgrees(m: Engine, u: UnorderedBucketer.Engine, id: BucketId, adds: seq<Entry>)
    requires Agree(m, u)
    ensures Agree(AddAll(m, id, adds), UnorderedBucketer.AddAll(u, id, adds))
    decreases |adds|
  {
    if adds != [] {
      AddItemAgrees(m, u, id, adds[0].id, adds[0].item);
      AddAllAgrees(m.AddItem(id, adds[0].id, adds[0].item), u.AddItem(id, adds[0].id, adds[0].item, None).0, id, adds[1..]);
    }
  }

  /** With threshold `n`, adding `n` distinct ids to an empty bucket calls
      no full-observer before the `n`-th add and each of them once on it
      (with threshold 5: on the fifth distinct id). */
  lemma FullExactlyAtThreshold(e: Engine, id: BucketId, adds: seq<Entry>)
    requires e.Contents(id) == [] && UniqueIds(adds) && 1 <= e.threshold == |adds|
    ensures AddAll(e, id, adds[..|adds| - 1]).log == e.log
    ensures AddAll(e, id, adds).log == e.log + Broadcast(e.fullCallbacks, id)
    ensures Values(AddAll(e, id, adds).Contents(id)) == Values(adds)
  {
    var u := UnorderedBucketer.Engine(e.threshold, None, e.buckets, e.fullCallbacks, [], {}, multiset{}, e.log);
    AddAllAgrees(e, u, id, adds);
    AddAllAgrees(e, u, id, adds[..|adds| - 1]);
    UnorderedBucketer.FullExactlyAtThreshold(u, id, adds);
  }

  /** The in-place bucketer of `in_memory.rb`. */
  class InMemory {
    var bucketThresholdSize: int
    var bucketMaxAge: Option<int>
    var buckets: map<BucketId, Bucket>
    var onBucketFullCallbacks: seq<Observer>
    var calls: seq<Call>

    function State(): Engine
      reads this
    {
      Engine(bucketThresholdSize, bucketMaxAge, buckets, onBucketFullCallbacks, calls)
    }

    /** `initialize`; omitted keywords take the class defaults. */
    constructor (bucketThresholdSize: int := BucketThresholdSizeDefault,
                 bucketMaxAge: Option<int> := Some(BucketMaxAgeDefault))
      ensures State() == Setup(bucketThresholdSize, bucketMaxAge)
    {
      this.bucketThresholdSize := bucketThresholdSize;
      this.bucketMaxAge := bucketMaxAge;
      buckets := map[];
      onBucketFullCallbacks := [];
      calls := [];
    }

    method AddItem(id: BucketId, itemId: ItemId, item: Item)
      modifies this`buckets, this`calls
      ensures State() == old(State()).AddItem(id, itemId, item)
    {
      AddBucketToDb(id, itemId, item);
      CheckBucketFull(id);
    }

    method OnBucketFull(observer: Observer)
      modifies this`onBucketFullCallbacks
      ensures State() == old(State()).OnBucketFull(observer)
    {
      onBucketFullCallbacks := onBucketFullCallbacks + [observer];
    }

    method GetBucket(id: BucketId) returns (r: seq<Item>)
      modifies this`buckets
      ensures (State(), r) == old(State()).GetBucket(id)
    {
      var bucket := GetBucketFromDb(id);
      r := Values(bucket);
    }

    method GetAndEmptyBucket(id: BucketId) returns (r: seq<Item>)
      modifies this`buckets
      ensures (State(), r) == old(State()).GetAndEmptyBucket(id)
    {
      r := GetBucket(id);
      EmptyBucket(id);
    }

    method EmptyBucket(id: BucketId)
      modifies this`buckets
      ensures State() == old(State()).EmptyBucket(id)
    {
      EmptyBucketInDb(id);
    }

    /** The private `bucket_full?`. */
    method IsBucketFull(id: BucketId) returns (full: bool)
      modifies this`buckets
      ensures buckets == Materialize(old(buckets), id)
      ensures full <==> |Stored(old(buckets), id)| >= bucketThresholdSize
    {
      var size := BucketSizeFromDb(id);
      full := size >= bucketThresholdSize;
    }

    method CheckBucketFull(id: BucketId)
      modifies this`buckets, this`calls
      ensures State() == old(State()).CheckBucketFull(id)
    {
      var full := IsBucketFull(id);
      if full {
        calls := NotifyAll(onBucketFullCallbacks, id, calls);
      }
    }

    method BucketSizeFromDb(id: BucketId) returns (size: nat)
      modifies this`buckets
      ensures buckets == Materialize(old(buckets), id)
      ensures size == |Stored(old(buckets), id)|
    {
      if id !in buckets {
        buckets := buckets[id := []];
      }
      size := |buckets[id]|;
    }

    method AddBucketToDb(id: BucketId, itemId: ItemId, item: Item)
      modifies this`buckets
      ensures buckets == Put(old(buckets), id, itemId, item)
    {
      if id !in buckets {
        buckets := buckets[id := []];
      }
      buckets := buckets[id := Upsert(buckets[id], itemId, item)];
    }

    method GetBucketFromDb(id: BucketId) returns (bucket: Bucket)
      modifies this`buckets
      ensures buckets == Materialize(old(buckets), id)
      ensures bucket == Stored(old(buckets), id)
    {
      if id !in buckets {
        buckets := buckets[id := []];
      }
      bucket := buckets[id];
    }

    method EmptyBucketInDb(id: BucketId)
      modifies this`buckets
      ensures buckets == old(buckets)[id := []]
    {
      buckets := buckets[id := []];
    }
  }
}
