/** The unordered bucket engine (`lib/em-bucketer/base.rb`) composed with
    the in-memory unordered backend (`lib/em-bucketer/database/hash.rb`).
    Both are mixins of one Ruby object and share its `@buckets`, so they are
    one class here.

    `Engine` is the engine's whole state as a value and its member functions
    are the operations on it; class `Bucketer` performs the same operations
    in place, and each of its methods is proved to take its state exactly
    where the corresponding function says.

    Completions resolve synchronously. A scheduled `EM.add_timer` block is
    an element of `scheduled` until the reactor runs it (`Timeout`); there is
    no clock. The in-memory backend never fails; an operation that waits on a
    backend call takes `fault`, the outcome of that call on a backend that can
    fail (`None` for the in-memory one): on `Some(e)` the call writes nothing
    and reports `e`. */
module UnorderedBucketer {
  import opened Common
  import opened UnorderedStore

  datatype Engine = Engine(
    threshold: int,                 // @bucket_threshold_size
    maxAge: Option<int>,            // @bucket_max_age; None is Ruby's nil
    buckets: map<BucketId, Bucket>, // @buckets
    fullCallbacks: seq<Observer>,   // @on_bucket_full_callbacks
    timeoutCallbacks: seq<Observer>,// @on_bucket_timeout_callbacks
    withTimers: set<BucketId>,      // @buckets_with_timers
    scheduled: multiset<BucketId>,  // EM.add_timer blocks not yet run
    log: seq<Call>)                 // every observer call so far
  {
    /** The items of bucket `id`, as the backend would report them. */
    function Contents(id: BucketId): Bucket {
      Stored(buckets, id)
    }

    /** The private `add_timer_if_first`: with a max age, schedule a timer
        block only when `id` is newly added to the set (`Set#add?`). */
    function AddTimerIfFirst(id: BucketId): Engine {
      if maxAge.None? || id in withTimers then this
      else this.(withTimers := withTimers + {id}, scheduled := scheduled + multiset{id})
    }

    /** The private `clear_timer`: forget set membership; a block already
        scheduled stays scheduled. */
    function ClearTimer(id: BucketId): Engine {
      this.(withTimers := withTimers - {id})
    }

    /** The private `check_bucket_full`: query the size (which creates an
        empty entry for an untouched bucket) and, at or over the threshold,
        call every full-observer. */
    function CheckBucketFull(id: BucketId): Engine {
      var e := this.(buckets := Materialize(buckets, id));
      if |Contents(id)| >= threshold then e.(log := log + Broadcast(fullCallbacks, id)) else e
    }

    /** `add_item`: arm, persist, then check fullness; the check runs
        whether or not the persist succeeded. */
    function AddItem(id: BucketId, itemId: ItemId, item: Item, fault: Option<string>): (Engine, Outcome) {
      var armed := AddTimerIfFirst(id);
      if fault.Some? then (armed.CheckBucketFull(id), Fail(fault.value))
      else (armed.(buckets := Put(armed.buckets, id, itemId, item)).CheckBucketFull(id), Pass)
    }

    function OnBucketFull(observer: Observer): Engine {
      this.(fullCallbacks := fullCallbacks + [observer])
    }

    function OnBucketTimeout(observer: Observer): Engine {
      this.(timeoutCallbacks := timeoutCallbacks + [observer])
    }

    /** `get_bucket`: the values of the bucket. */
    function GetBucket(id: BucketId, fault: Option<string>): (Engine, Result<seq<Item>>) {
      if fault.Some? then (this, Err(fault.value))
      else (this.(buckets := Materialize(buckets, id)), Ok(Values(Contents(id))))
    }

    /** `empty_bucket`: reset the bucket, and only then clear the timer. */
    function EmptyBucket(id: BucketId, fault: Option<string>): (Engine, Outcome) {
      if fault.Some? then (this, Fail(fault.value))
      else (this.(buckets := buckets[id := []]).ClearTimer(id), Pass)
    }

    /** `get_and_empty_bucket`: `get_bucket`, then `empty_bucket`; yields
        what was read, or the first failure. */
    function GetAndEmptyBucket(id: BucketId, readFault: Option<string>, clearFault: Option<string>)
      : (Engine, Result<seq<Item>>)
    {
      var (read, contents) := GetBucket(id, readFault);
      if contents.Err? then (read, contents)
      else
        var (emptied, outcome) := read.EmptyBucket(id, clearFault);
        if outcome.Fail? then (emptied, Err(outcome.error)) else (emptied, contents)
    }

    /** The reactor runs a block scheduled by `add_timer_if_first`: every
        timeout-observer is called; the set is left as it is. */
    function Timeout(id: BucketId): Engine
      requires id in scheduled
    {
      this.(scheduled := scheduled - multiset{id}, log := log + Broadcast(timeoutCallbacks, id))
    }

    /** Every bucket is a map, and without a max age no timer exists. */
    predicate Valid() {
      && AllUnique(buckets)
      && (maxAge.None? ==> withTimers == {} && scheduled == multiset{})
    }
  }

  /** The private `setup`. */
  function Setup(threshold: int, maxAge: Option<int>): Engine {
    Engine(threshold, maxAge, map[], [], [], {}, multiset{}, [])
  }

  /** One call into the engine, or the reactor running a timer block. */
  datatype Op =
    | AddItemOp(id: BucketId, itemId: ItemId, item: Item, fault: Option<string>)
    | GetBucketOp(id: BucketId, fault: Option<string>)
    | GetAndEmptyBucketOp(id: BucketId, readFault: Option<string>, clearFault: Option<string>)
    | EmptyBucketOp(id: BucketId, fault: Option<string>)
    | OnBucketFullOp(observer: Observer)
    | OnBucketTimeoutOp(observer: Observer)
    | TimeoutOp(id: BucketId)

  function Apply(e: Engine, op: Op): Engine {
    match op
    case AddItemOp(id, k, v, f) => e.AddItem(id, k, v, f).0
    case GetBucketOp(id, f) => e.GetBucket(id, f).0
    case GetAndEmptyBucketOp(id, rf, cf) => e.GetAndEmptyBucket(id, rf, cf).0
    case EmptyBucketOp(id, f) => e.EmptyBucket(id, f).0
    case OnBucketFullOp(o) => e.OnBucketFull(o)
    case OnBucketTimeoutOp(o) => e.OnBucketTimeout(o)
    case TimeoutOp(id) => if id in e.scheduled then e.Timeout(id) else e
  }

  function Run(e: Engine, ops: seq<Op>): Engine
    decreases |ops|
  {
    if ops == [] then e else Run(Apply(e, ops[0]), ops[1..])
  }

  // ---------------------------------------------------------------------
  // Properties of the operations
  // ---------------------------------------------------------------------

  /** A fresh engine is valid and every bucket reads empty. */
  lemma SetupValid(threshold: int, maxAge: Option<int>)
    ensures Setup(threshold, maxAge).Valid()
    ensures Setup(threshold, maxAge).withTimers == {} && Setup(threshold, maxAge).scheduled == multiset{}
    ensures forall id :: Setup(threshold, maxAge).Contents(id) == []
  {
  }

  /** Every operation keeps the engine valid. */
  lemma ApplyValid(e: Engine, op: Op)
    requires e.Valid()
    ensures Apply(e, op).Valid()
  {
    match op
    case AddItemOp(id, k, v, f) => AddItemValid(e, id, k, v, f);
    case GetBucketOp(id, f) =>
      assert AllUnique(Materialize(e.buckets, id));
    case GetAndEmptyBucketOp(id, rf, cf) =>
      if rf.None? {
        var read := e.GetBucket(id, rf).0;
        assert AllUnique(read.buckets);
        assert AllUnique(read.buckets[id := []]);
      }
    case EmptyBucketOp(id, f) =>
      assert AllUnique(e.buckets[id := []]);
    case OnBucketFullOp(o) =>
    case OnBucketTimeoutOp(o) =>
    case TimeoutOp(id) =>
  }

  lemma AddItemValid(e: Engine, id: BucketId, k: ItemId, v: Item, fault: Option<string>)
    requires e.Valid()
    ensures e.AddItem(id, k, v, fault).0.Valid()
  {
    PutKeepsUnique(e.buckets, id, k, v);
    PutKeepsUnique(Put(e.buckets, id, k, v), id, k, v);
  }

  /** Any sequence of operations keeps the engine valid; in particular,
      without a max age no timer is ever scheduled. */
  lemma {:induction false} RunValid(e: Engine, ops: seq<Op>)
    requires e.Valid()
    ensures Run(e, ops).Valid()
    ensures e.maxAge.None? ==> Run(e, ops).withTimers == {} && Run(e, ops).scheduled == multiset{}
    decreases |ops|
  {
    if ops != [] {
      ApplyValid(e, ops[0]);
      assert Apply(e, ops[0]).maxAge == e.maxAge;
      RunValid(Apply(e, ops[0]), ops[1..]);
    }
  }

  /** `add_item` schedules a timer block exactly when a max age is set and
      the bucket was not yet in the set; the set then holds the bucket. */
  lemma AddItemArmsOnlyWhenNew(e: Engine, id: BucketId, k: ItemId, v: Item, fault: Option<string>)
    ensures var e' := e.AddItem(id, k, v, fault).0;
      && e'.scheduled == (if e.maxAge.Some? && id !in e.withTimers then e.scheduled + multiset{id} else e.scheduled)
      && e'.withTimers == (if e.maxAge.Some? then e.withTimers + {id} else e.withTimers)
  {
  }

  /** What `add_item` leaves in its own bucket. */
  lemma AddItemContents(e: Engine, id: BucketId, k: ItemId, v: Item, fault: Option<string>)
    ensures e.AddItem(id, k, v, fault).0.Contents(id) ==
            if fault.None? then Upsert(e.Contents(id), k, v) else e.Contents(id)
  {
  }

  /** `add_item` upserts into its bucket only, and succeeds exactly when
      the persist does. */
  lemma AddItemStores(e: Engine, id: BucketId, k: ItemId, v: Item, fault: Option<string>)
    ensures var (e', outcome) := e.AddItem(id, k, v, fault);
      && e'.Contents(id) == (if fault.None? then Upsert(e.Contents(id), k, v) else e.Contents(id))
      && (forall x :: x != id ==> e'.Contents(x) == e.Contents(x))
      && outcome == (if fault.None? then Pass else Fail(fault.value))
  {
    var armed := e.AddTimerIfFirst(id);
    var e' := e.AddItem(id, k, v, fault).0;
    AddItemContents(e, id, k, v, fault);
    forall x | x != id ensures e'.Contents(x) == e.Contents(x) {
      if fault.None? {
        MaterializeKeeps(Put(armed.buckets, id, k, v), id);
        PutKeeps(armed.buckets, id, k, v);
      } else {
        MaterializeKeeps(armed.buckets, id);
      }
    }
  }

  /** The threshold rule: after `add_item`, every full-observer has been
      called once, in registration order, with `id` exactly when the
      bucket's size is at least the threshold. */
  lemma AddItemThreshold(e: Engine, id: BucketId, k: ItemId, v: Item, fault: Option<string>)
    ensures var e' := e.AddItem(id, k, v, fault).0;
      e'.log == e.log + (if |e'.Contents(id)| >= e.threshold then Broadcast(e.fullCallbacks, id) else [])
  {
    AddItemContents(e, id, k, v, fault);
  }

  /** Once at or over the threshold, every further `add_item` calls the
      full-observers again: adding never shrinks a bucket. */
  lemma FullOnEveryAddWhileOver(e: Engine, id: BucketId, k: ItemId, v: Item, fault: Option<string>)
    requires |e.Contents(id)| >= e.threshold
    ensures e.AddItem(id, k, v, fault).0.log == e.log + Broadcast(e.fullCallbacks, id)
  {
    AddItemContents(e, id, k, v, fault);
    AddItemThreshold(e, id, k, v, fault);
    UpsertSize(e.Contents(id), k, v);
  }

  /** `get_bucket` yields the bucket's values in insertion order and changes
      no contents, no timer and no observer state. */
  lemma GetBucketReadOnly(e: Engine, id: BucketId, fault: Option<string>)
    ensures var (e', r) := e.GetBucket(id, fault);
      && r == (if fault.None? then Ok(Values(e.Contents(id))) else Err(fault.value))
      && (forall x :: e'.Contents(x) == e.Contents(x))
      && e'.withTimers == e.withTimers && e'.scheduled == e.scheduled
      && e'.log == e.log && e'.fullCallbacks == e.fullCallbacks && e'.timeoutCallbacks == e.timeoutCallbacks
  {
  }

  /** `empty_bucket` succeeds and clears the bucket and its set membership,
      touching no other bucket; on failure nothing changes. */
  lemma EmptyBucketClears(e: Engine, id: BucketId, fault: Option<string>)
    ensures var (e', outcome) := e.EmptyBucket(id, fault);
      if fault.None? then
        && outcome == Pass && e'.Contents(id) == [] && id !in e'.withTimers
        && (forall x :: x != id ==> e'.Contents(x) == e.Contents(x))
        && e'.withTimers == e.withTimers - {id} && e'.scheduled == e.scheduled && e'.log == e.log
      else outcome == Fail(fault.value) && e' == e
  {
  }

  /** Emptying twice is emptying once. */
  lemma EmptyBucketIdempotent(e: Engine, id: BucketId)
    ensures e.EmptyBucket(id, None).0.EmptyBucket(id, None) == e.EmptyBucket(id, None)
  {
    var once := e.EmptyBucket(id, None).0;
    assert once.buckets[id := []] == once.buckets;
    assert once.withTimers - {id} == once.withTimers;
  }

  /** `get_and_empty_bucket` yields what the bucket held before and leaves
      it empty; it fails if the read or the clear fails, and a failed read
      changes nothing. */
  lemma GetAndEmptyBucketSpec(e: Engine, id: BucketId, readFault: Option<string>, clearFault: Option<string>)
    ensures var (e', r) := e.GetAndEmptyBucket(id, readFault, clearFault);
      && (readFault.Some? ==> r == Err(readFault.value) && e' == e)
      && (readFault.None? && clearFault.Some? ==>
            r == Err(clearFault.value) && (forall x :: e'.Contents(x) == e.Contents(x)) && e'.withTimers == e.withTimers)
      && (readFault.None? && clearFault.None? ==>
            && r == Ok(Values(e.Contents(id))) && e'.Contents(id) == [] && id !in e'.withTimers
            && (forall x :: x != id ==> e'.Contents(x) == e.Contents(x)))
  {
    if readFault.None? {
      var read := e.GetBucket(id, readFault).0;
      GetBucketReadOnly(e, id, readFault);
      EmptyBucketClears(read, id, clearFault);
    }
  }

  /** After a successful `empty_bucket`, the next `add_item` schedules a new
      timer block (when a max age is set). */
  lemma EmptyThenAddRearms(e: Engine, id: BucketId, k: ItemId, v: Item, fault: Option<string>)
    requires e.maxAge.Some?
    ensures var emptied := e.EmptyBucket(id, None).0;
      emptied.AddItem(id, k, v, fault).0.scheduled == emptied.scheduled + multiset{id}
  {
    AddItemArmsOnlyWhenNew(e.EmptyBucket(id, None).0, id, k, v, fault);
  }

  /** A timer block calls every timeout-observer in order with `id` and
      leaves the set alone, so no further `add_item` re-arms the bucket
      until it is emptied. This does not bound the blocks outstanding for a
      bucket: `clear_timer` cancels none, so after an empty and a new add
      two blocks can be scheduled for the same bucket. */
  lemma TimeoutLeavesSetAlone(e: Engine, id: BucketId, k: ItemId, v: Item, fault: Option<string>)
    requires id in e.scheduled && id in e.withTimers
    ensures e.Timeout(id).log == e.log + Broadcast(e.timeoutCallbacks, id)
    ensures e.Timeout(id).withTimers == e.withTimers
    ensures e.Timeout(id).AddItem(id, k, v, fault).0.scheduled == e.scheduled - multiset{id}
  {
    AddItemArmsOnlyWhenNew(e.Timeout(id), id, k, v, fault);
  }

  /** Registering an observer appends it: the earlier ones keep their
      order and are still called first. */
  lemma RegistrationAppends(e: Engine, o: Observer, id: BucketId)
    ensures e.OnBucketFull(o).fullCallbacks == e.fullCallbacks + [o]
    ensures e.OnBucketTimeout(o).timeoutCallbacks == e.timeoutCallbacks + [o]
    ensures Broadcast(e.OnBucketFull(o).fullCallbacks, id) == Broadcast(e.fullCallbacks, id) + [Call(o, id)]
  {
    BroadcastAppend(e.fullCallbacks, [o], id);
  }

  /** `add_item` of each entry of `adds` into bucket `id`, one after the
      other, each persisted successfully. */
  function AddAll(e: Engine, id: BucketId, adds: seq<Entry>): Engine
    decreases |adds|
  {
    if adds == [] then e else AddAll(e.AddItem(id, adds[0].id, adds[0].item, None).0, id, adds[1..])
  }

  /** Adding items under ids the bucket does not hold yet, all distinct:
      the bucket gains their values in order, and the full-observers are
      called on exactly those adds that bring the size to the threshold or
      beyond. */
  lemma AddDistinctThreshold(e: Engine, id: BucketId, adds: seq<Entry>)
    requires UniqueIds(e.Contents(id) + adds)
    ensures Values(AddAll(e, id, adds).Contents(id)) == Values(e.Contents(id)) + Values(adds)
    ensures AddAll(e, id, adds).log == e.log + FullRounds(e.fullCallbacks, id, |e.Contents(id)|, |adds|, e.threshold)
  {
    AddDistinctValues(e, id, adds);
    AddDistinctLog(e, id, adds);
  }

  /** The values part of `AddDistinctThreshold`. */
  lemma {:induction false} AddDistinctValues(e: Engine, id: BucketId, adds: seq<Entry>)
    requires UniqueIds(e.Contents(id) + adds)
    ensures Values(AddAll(e, id, adds).Contents(id)) == Values(e.Contents(id)) + Values(adds)
    decreases |adds|
  {
    if adds != [] {
      var e' := e.AddItem(id, adds[0].id, adds[0].item, None).0;
      FirstAddIsNew(e.Contents(id), adds);
      AddNewIdStep(e, id, adds[0].id, adds[0].item);
      ContentsStep(e.Contents(id), e'.Contents(id), adds);
      ValuesStep(e.Contents(id), e'.Contents(id), adds);
      AddDistinctValues(e', id, adds[1..]);
    }
  }

  /** The observer part of `AddDistinctThreshold`. */
  lemma {:induction false} AddDistinctLog(e: Engine, id: BucketId, adds: seq<Entry>)
    requires UniqueIds(e.Contents(id) + adds)
    ensures AddAll(e, id, adds).log == e.log + FullRounds(e.fullCallbacks, id, |e.Contents(id)|, |adds|, e.threshold)
    decreases |adds|
  {
    if adds != [] {
      var e' := DistinctStep(e, id, adds);
      AddDistinctLog(e', id, adds[1..]);
      LogChain(AddAll(e', id, adds[1..]).log, e.log, e'.log, e.fullCallbacks, e'.fullCallbacks, id,
               |e.Contents(id)|, |e'.Contents(id)|, |adds|, e.threshold, e'.threshold);
    }
  }

  /** One distinct add, summed up for the induction in `AddDistinctLog`. */
  lemma DistinctStep(e: Engine, id: BucketId, adds: seq<Entry>) returns (e': Engine)
    requires adds != [] && UniqueIds(e.Contents(id) + adds)
    ensures AddAll(e, id, adds) == AddAll(e', id, adds[1..])
    ensures e'.Contents(id) + adds[1..] == e.Contents(id) + adds
    ensures |e'.Contents(id)| == |e.Contents(id)| + 1
    ensures e'.log == e.log + (if |e.Contents(id)| + 1 >= e.threshold then Broadcast(e.fullCallbacks, id) else [])
    ensures e'.threshold == e.threshold && e'.fullCallbacks == e.fullCallbacks
  {
    e' := e.AddItem(id, adds[0].id, adds[0].item, None).0;
    FirstAddIsNew(e.Contents(id), adds);
    AddNewIdStep(e, id, adds[0].id, adds[0].item);
    ContentsStep(e.Contents(id), e'.Contents(id), adds);
  }

  /** The observer calls of a first add followed by those of the rest are
      the calls of all the adds. The primed parameters are the engine's
      fields after the first add; taking them apart from the unprimed ones,
      with requires that equate them, lets the caller pass both without
      first rewriting one into the other, which keeps its proof small. */
  lemma LogChain(all: seq<Call>, log: seq<Call>, log': seq<Call>, observers: seq<Observer>, observers': seq<Observer>,
                 id: BucketId, size: nat, size': nat, n: nat, threshold: int, threshold': int)
    requires n > 0 && observers' == observers && size' == size + 1 && threshold' == threshold
    requires log' == log + (if size + 1 >= threshold then Broadcast(observers, id) else [])
    requires all == log' + FullRounds(observers', id, size', n - 1, threshold')
    ensures all == log + FullRounds(observers, id, size, n, threshold)
  {
    LogStep(log, log', observers, id, size, n, threshold);
  }

  /** One step of `AddDistinctThreshold`: the bucket gained the first entry. */
  lemma ContentsStep(b: Bucket, b': Bucket, adds: seq<Entry>)
    requires adds != [] && b' == b + [adds[0]]
    ensures b' + adds[1..] == b + adds
    ensures |b'| == |b| + 1
  {
    AppendHead(b, adds);
  }

  /** One step of `AddDistinctValues`: the values gained the first item. */
  lemma ValuesStep(b: Bucket, b': Bucket, adds: seq<Entry>)
    requires adds != [] && b' == b + [adds[0]]
    ensures Values(b') + Values(adds[1..]) == Values(b) + Values(adds)
  {
    assert Values(b') == Values(b) + [adds[0].item];
    ValuesCons(adds);
  }

  /** Filling an empty bucket with `threshold` distinct items: the adds
      before the last call no full-observer, the last add calls each of
      them once, and the bucket reads the items in the order added. */
  lemma FullExactlyAtThreshold(e: Engine, id: BucketId, adds: seq<Entry>)
    requires e.Contents(id) == [] && UniqueIds(adds) && 1 <= e.threshold == |adds|
    ensures AddAll(e, id, adds[..|adds| - 1]).log == e.log
    ensures AddAll(e, id, adds).log == e.log + Broadcast(e.fullCallbacks, id)
    ensures Values(AddAll(e, id, adds).Contents(id)) == Values(adds)
  {
    var n := |adds|;
    assert e.Contents(id) + adds == adds;
    assert e.Contents(id) + adds[..n - 1] == adds[..n - 1];
    AddDistinctThreshold(e, id, adds);
    AddDistinctThreshold(e, id, adds[..n - 1]);
    FullRoundsBelow(e.fullCallbacks, id, 0, n - 1, e.threshold);
    FullRoundsReach(e.fullCallbacks, id, 0, n, e.threshold);
  }

  /** Adding an id the bucket does not hold appends one entry, and the
      full-observers are called when the grown bucket meets the threshold. */
  lemma AddNewId(e: Engine, id: BucketId, k: ItemId, v: Item)
    requires k !in Ids(e.Contents(id))
    ensures var e' := e.AddItem(id, k, v, None).0;
      && e'.Contents(id) == e.Contents(id) + [Entry(k, v)]
      && Ids(e'.Contents(id)) == Ids(e.Contents(id)) + [k]
      && Values(e'.Contents(id)) == Values(e.Contents(id)) + [v]
      && e'.log == e.log + (if |e.Contents(id)| + 1 >= e.threshold then Broadcast(e.fullCallbacks, id) else [])
      && e'.threshold == e.threshold && e'.fullCallbacks == e.fullCallbacks
  {
    AddNewIdStep(e, id, k, v);
    AppendEntry(e.Contents(id), k, v);
  }

  /** The contents and calls part of `AddNewId`. */
  lemma AddNewIdStep(e: Engine, id: BucketId, k: ItemId, v: Item)
    requires k !in Ids(e.Contents(id))
    ensures var e' := e.AddItem(id, k, v, None).0;
      && e'.Contents(id) == e.Contents(id) + [Entry(k, v)]
      && e'.log == e.log + (if |e.Contents(id)| + 1 >= e.threshold then Broadcast(e.fullCallbacks, id) else [])
      && e'.threshold == e.threshold && e'.fullCallbacks == e.fullCallbacks
  {
    AddItemContents(e, id, k, v, None);
    UpsertNew(e.Contents(id), k, v);
  }

  /** The in-place engine: `base.rb` over `database/hash.rb`. */
  class Bucketer {
    var bucketThresholdSize: int
    var bucketMaxAge: Option<int>
    var buckets: map<BucketId, Bucket>
    var onBucketFullCallbacks: seq<Observer>
    var onBucketTimeoutCallbacks: seq<Observer>
    var bucketsWithTimers: set<BucketId>
    var scheduledTimers: multiset<BucketId>
    var calls: seq<Call>

    function State(): Engine
      reads this
    {
      Engine(bucketThresholdSize, bucketMaxAge, buckets, onBucketFullCallbacks,
             onBucketTimeoutCallbacks, bucketsWithTimers, scheduledTimers, calls)
    }

    /** `setup(bucket_threshold_size, bucket_max_age)`. */
    constructor (bucketThresholdSize: int, bucketMaxAge: Option<int>)
      ensures State() == Setup(bucketThresholdSize, bucketMaxAge)
    {
      this.bucketThresholdSize := bucketThresholdSize;
      this.bucketMaxAge := bucketMaxAge;
      buckets := map[];
      onBucketFullCallbacks := [];
      onBucketTimeoutCallbacks := [];
      bucketsWithTimers := {};
      scheduledTimers := multiset{};
      calls := [];
    }

    method AddItem(id: BucketId, itemId: ItemId, item: Item, fault: Option<string>) returns (r: Outcome)
      modifies this
      ensures (State(), r) == old(State()).AddItem(id, itemId, item, fault)
    {
      AddTimerIfFirst(id);
      if fault.Some? {
        r := Fail(fault.value);
      } else {
        r := AddBucketToDb(id, itemId, item);
      }
      CheckBucketFull(id);
    }

    method OnBucketFull(observer: Observer)
      modifies this`onBucketFullCallbacks
      ensures State() == old(State()).OnBucketFull(observer)
    {
      onBucketFullCallbacks := onBucketFullCallbacks + [observer];
    }

    method OnBucketTimeout(observer: Observer)
      modifies this`onBucketTimeoutCallbacks
      ensures State() == old(State()).OnBucketTimeout(observer)
    {
      onBucketTimeoutCallbacks := onBucketTimeoutCallbacks + [observer];
    }

    method GetBucket(id: BucketId, fault: Option<string>) returns (r: Result<seq<Item>>)
      modifies this`buckets
      ensures (State(), r) == old(State()).GetBucket(id, fault)
    {
      if fault.Some? {
        r := Err(fault.value);
      } else {
        var bucket := GetBucketFromDb(id);
        r := Ok(Values(bucket));
      }
    }

    method GetAndEmptyBucket(id: BucketId, readFault: Option<string>, clearFault: Option<string>)
      returns (r: Result<seq<Item>>)
      modifies this
      ensures (State(), r) == old(State()).GetAndEmptyBucket(id, readFault, clearFault)
    {
      var contents := GetBucket(id, readFault);
      if contents.Err? {
        r := contents;
      } else {
        var outcome := EmptyBucket(id, clearFault);
        r := if outcome.Fail? then Err(outcome.error) else contents;
      }
    }

    method EmptyBucket(id: BucketId, fault: Option<string>) returns (r: Outcome)
      modifies this
      ensures (State(), r) == old(State()).EmptyBucket(id, fault)
    {
      if fault.Some? {
        r := Fail(fault.value);
      } else {
        r := EmptyBucketInDb(id);
        ClearTimer(id);
      }
    }

    /** The reactor runs a timer block scheduled for `id`. */
    method Timeout(id: BucketId)
      requires id in scheduledTimers
      modifies this`scheduledTimers, this`calls
      ensures State() == old(State()).Timeout(id)
    {
      scheduledTimers := scheduledTimers - multiset{id};
      calls := NotifyAll(onBucketTimeoutCallbacks, id, calls);
    }

    method CheckBucketFull(id: BucketId)
      modifies this`buckets, this`calls
      ensures State() == old(State()).CheckBucketFull(id)
    {
      var size := BucketSizeFromDb(id);
      if size >= bucketThresholdSize {
        calls := NotifyAll(onBucketFullCallbacks, id, calls);
      }
    }

    method AddTimerIfFirst(id: BucketId)
      modifies this`bucketsWithTimers, this`scheduledTimers
      ensures State() == old(State()).AddTimerIfFirst(id)
    {
      if bucketMaxAge.None? {
        return;
      }
      if id !in bucketsWithTimers {
        bucketsWithTimers := bucketsWithTimers + {id};
        scheduledTimers := scheduledTimers + multiset{id};
      }
    }

    method ClearTimer(id: BucketId)
      modifies this`bucketsWithTimers
      ensures State() == old(State()).ClearTimer(id)
    {
      bucketsWithTimers := bucketsWithTimers - {id};
    }

    // database/hash.rb

    method BucketSizeFromDb(id: BucketId) returns (size: nat)
      modifies this`buckets
      ensures buckets == Materialize(old(buckets), id)
      ensures size == |Stored(old(buckets), id)|
    {
      if id !in buckets {
        buckets := buckets[id := []];
      }
      size := |buckets[id]|;
    }

    method AddBucketToDb(id: BucketId, itemId: ItemId, item: Item) returns (r: Outcome)
      modifies this`buckets
      ensures buckets == Put(old(buckets), id, itemId, item)
      ensures r == Pass
    {
      if id !in buckets {
        buckets := buckets[id := []];
      }
      buckets := buckets[id := Upsert(buckets[id], itemId, item)];
      r := Pass;
    }

    method GetBucketFromDb(id: BucketId) returns (bucket: Bucket)
      modifies this`buckets
      ensures buckets == Materialize(old(buckets), id)
      ensures bucket == Stored(old(buckets), id)
    {
      if id !in buckets {
        buckets := buckets[id := []];
      }
      bucket := buckets[id];
    }

    method EmptyBucketInDb(id: BucketId) returns (r: Outcome)
      modifies this`buckets
      ensures buckets == old(buckets)[id := []]
      ensures r == Pass
    {
      buckets := buckets[id := []];
      r := Pass;
    }
  }
}
