/** The ordered bucket engine (`lib/em-bucketer/ordered/base.rb`) composed
    with the in-memory ordered backend (`lib/em-bucketer/ordered/database/hash.rb`)
    as `Ordered::InMemory` (`lib/em-bucketer/ordered/in_memory.rb`) does.

    `Engine` is the whole state as a value and its member functions are the
    operations; class `InMemory` performs them in place, each method proved
    to take its state exactly where the corresponding function says.

    An `EM::Timer` is an entry of `timers`: it is armed while its `fired`
    flag is false, fires at most once (`Timeout`), and is cancelled by
    deleting its entry. `timersMade` numbers the timers so that a replaced
    timer is told apart from its replacement. There is no clock.

    The in-memory backend never fails. An operation that waits on a backend
    completion takes `fault`, the outcome of that completion on a backend
    that can fail (`None` for the in-memory one): on `Some(e)` the backend
    changes nothing and the operation reports `e`. */
module OrderedBucketer {
  import opened Common
  import opened OrderedStore

  /** `BUCKET_THRESHOLD_SIZE_DEFAULT`. */
  const BucketThresholdSizeDefault: int := 1000
  /** `BUCKET_MAX_AGE_DEFAULT`, in seconds. */
  const BucketMaxAgeDefault: int := 3600
  /** What `Array#first` raises for a negative count. */
  const NegativeCount: string := "ArgumentError: negative array size"

  datatype Timer = Timer(serial: nat, fired: bool)

  datatype Engine = Engine(
    threshold: int,                   // @bucket_threshold_size
    maxAge: Option<int>,              // @bucket_max_age; None is Ruby's nil
    fullCallbacks: seq<Observer>,     // @on_bucket_full_callbacks
    timeoutCallbacks: seq<Observer>,  // @on_bucket_timeout_callbacks
    timers: map<BucketId, Timer>,     // @timers
    timersMade: nat,                  // EM::Timer objects created so far
    buckets: map<BucketId, Slot>,     // @buckets
    log: seq<Call>)                   // every observer call so far
  {
    /** The items of bucket `id`, in the order they were added. */
    function Contents(id: BucketId): seq<Item> {
      Items(buckets, id)
    }

    /** `@timers[bucket_id] = EM::Timer.new(...)`: a new armed timer. */
    function StartTimer(id: BucketId): Engine {
      this.(timers := timers[id := Timer(timersMade, false)], timersMade := timersMade + 1)
    }

    /** The private `add_timer_if_first`: with a max age, start a timer
        unless the table already holds one for `id` (`||=`). */
    function AddTimerIfFirst(id: BucketId): Engine {
      if maxAge.None? || id in timers then this else StartTimer(id)
    }

    /** The private `clear_timer`: with a max age, delete (and so cancel)
        the timer of `id`. */
    function ClearTimer(id: BucketId): Engine {
      if maxAge.None? then this else this.(timers := timers - {id})
    }

    /** The private `reset_timer`: with a max age, clear the timer, ask the
        backend for the size (`bucket_empty?`, which stores an empty array
        for an untouched bucket) and start a fresh timer unless the bucket
        is empty. */
    function ResetTimer(id: BucketId): Engine {
      if maxAge.None? then this
      else
        var cleared := ClearTimer(id).(buckets := Touch(buckets, id));
        if |Contents(id)| == 0 then cleared else cleared.StartTimer(id)
    }

    /** The private `check_bucket_full` through `bucket_full?`. */
    function CheckBucketFull(id: BucketId): Engine {
      var e := this.(buckets := Touch(buckets, id));
      if |Contents(id)| >= threshold then e.(log := log + Broadcast(fullCallbacks, id)) else e
    }

    /** `add_item`: arm the timer first; then persist, and only after a
        successful persist check fullness. */
    function AddItem(id: BucketId, item: Item, fault: Option<string>): (Engine, Outcome) {
      var armed := AddTimerIfFirst(id);
      if fault.Some? then (armed, Fail(fault.value))
      else (armed.(buckets := Append(armed.buckets, id, item)).CheckBucketFull(id), Pass)
    }

    /** `pop_count`: reset the timer first when asked to, then take the
        first `count` items. */
    function PopCount(id: BucketId, count: int, resetTimer: bool := true, fault: Option<string>)
      : (Engine, Result<seq<Item>>)
    {
      var reset := if resetTimer then ResetTimer(id) else this;
      if fault.Some? then (reset, Err(fault.value))
      else if count < 0 then (reset.(buckets := Touch(reset.buckets, id)), Err(NegativeCount))
      else
        var all := reset.Contents(id);
        (reset.(buckets := reset.buckets[id := Left(all, count)]), Ok(Taken(all, count)))
    }

    /** `pop_all`: clear the timer first, then take every item. */
    function PopAll(id: BucketId, fault: Option<string>): (Engine, Result<seq<Item>>) {
      var cleared := ClearTimer(id);
      if fault.Some? then (cleared, Err(fault.value))
      else (cleared.(buckets := cleared.buckets[id := Some([])]), Ok(cleared.Contents(id)))
    }

    function OnBucketFull(observer: Observer): Engine {
      this.(fullCallbacks := fullCallbacks + [observer])
    }

    function OnBucketTimeout(observer: Observer): Engine {
      this.(timeoutCallbacks := timeoutCallbacks + [observer])
    }

    /** `get_bucket`: the items, storing an empty array for an untouched
        bucket. */
    function GetBucket(id: BucketId, fault: Option<string>): (Engine, Result<seq<Item>>) {
      if fault.Some? then (this, Err(fault.value))
      else (this.(buckets := Touch(buckets, id)), Ok(Contents(id)))
    }

    /** `empty_bucket`: empty the bucket and, once that succeeded, clear
        the timer. */
    function EmptyBucket(id: BucketId, fault: Option<string>): (Engine, Outcome) {
      if fault.Some? then (this, Fail(fault.value))
      else (this.(buckets := buckets[id := Some([])]).ClearTimer(id), Pass)
    }

    /** The armed timer of `id` runs `timeout_callback(bucket_id)`: every
        timeout-observer is called; the entry stays, marked as fired. */
    function Timeout(id: BucketId): Engine
      requires id in timers && !timers[id].fired
    {
      this.(timers := timers[id := timers[id].(fired := true)],
            log := log + Broadcast(timeoutCallbacks, id))
    }

    /** Without a max age there is no timer, and every timer was numbered
        before the next one is made. */
    predicate Valid() {
      && (maxAge.None? ==> timers == map[])
      && (forall x :: x in timers ==> timers[x].serial < timersMade)
    }
  }

  /** `setup(bucket_threshold_size, bucket_max_age)` followed by the
      backend's set-up, which starts from an empty store. */
  function Setup(threshold: int, maxAge: Option<int>): Engine {
    Engine(threshold, maxAge, [], [], map[], 0, map[], [])
  }

  /** `Ordered::InMemory.new` with both keywords omitted. */
  function Default(): (e: Engine)
    ensures e.threshold == 1000 && e.maxAge == Some(3600)
    ensures e.fullCallbacks == [] && e.timeoutCallbacks == [] && e.timers == map[] && e.log == []
    ensures forall id :: e.Contents(id) == [] && e.GetBucket(id, None).1 == Ok([])
  {
    Setup(BucketThresholdSizeDefault, Some(BucketMaxAgeDefault))
  }

  /** One call into the engine, or an armed timer firing. */
  datatype Op =
    | AddItemOp(id: BucketId, item: Item, fault: Option<string>)
    | PopCountOp(id: BucketId, count: int, resetTimer: bool, fault: Option<string>)
    | PopAllOp(id: BucketId, fault: Option<string>)
    | GetBucketOp(id: BucketId, fault: Option<string>)
    | EmptyBucketOp(id: BucketId, fault: Option<string>)
    | OnBucketFullOp(observer: Observer)
    | OnBucketTimeoutOp(observer: Observer)
    | TimeoutOp(id: BucketId)

  function Apply(e: Engine, op: Op): Engine {
    match op
    case AddItemOp(id, v, f) => e.AddItem(id, v, f).0
    case PopCountOp(id, n, r, f) => e.PopCount(id, n, r, f).0
    case PopAllOp(id, f) => e.PopAll(id, f).0
    case GetBucketOp(id, f) => e.GetBucket(id, f).0
    case EmptyBucketOp(id, f) => e.EmptyBucket(id, f).0
    case OnBucketFullOp(o) => e.OnBucketFull(o)
    case OnBucketTimeoutOp(o) => e.OnBucketTimeout(o)
    case TimeoutOp(id) => if id in e.timers && !e.timers[id].fired then e.Timeout(id) else e
  }

  function Run(e: Engine, ops: seq<Op>): Engine
    decreases |ops|
  {
    if ops == [] then e else Run(Apply(e, ops[0]), ops[1..])
  }

  // ---------------------------------------------------------------------
  // Timers
  // ---------------------------------------------------------------------

  /** A fresh engine is valid, has no timer and no observer, and every
      bucket reads empty. */
  lemma SetupValid(threshold: int, maxAge: Option<int>)
    ensures Setup(threshold, maxAge).Valid()
    ensures Setup(threshold, maxAge).timers == map[]
    ensures forall id :: Setup(threshold, maxAge).Contents(id) == []
  {
  }

  /** Starting a timer, clearing one and resetting one keep the engine
      valid. */
  lemma TimerStepsValid(e: Engine, id: BucketId)
    requires e.Valid()
    ensures e.AddTimerIfFirst(id).Valid() && e.ClearTimer(id).Valid() && e.ResetTimer(id).Valid()
  {
  }

  /** Every operation keeps the engine valid. */
  lemma ApplyValid(e: Engine, op: Op)
    requires e.Valid()
    ensures Apply(e, op).Valid()
    ensures Apply(e, op).maxAge == e.maxAge
  {
    match op
    case AddItemOp(id, v, f) => AddItemValid(e, id, v, f);
    case PopCountOp(id, n, r, f) => PopCountValid(e, id, n, r, f);
    case PopAllOp(id, f) => TimerStepsValid(e, id);
    case GetBucketOp(id, f) =>
    case EmptyBucketOp(id, f) => TimerStepsValid(e.EmptyBucket(id, f).0, id);
    case OnBucketFullOp(o) =>
    case OnBucketTimeoutOp(o) =>
    case TimeoutOp(id) =>
  }

  lemma AddItemValid(e: Engine, id: BucketId, item: Item, fault: Option<string>)
    requires e.Valid()
    ensures e.AddItem(id, item, fault).0.Valid() && e.AddItem(id, item, fault).0.maxAge == e.maxAge
  {
    TimerStepsValid(e, id);
  }

  lemma PopCountValid(e: Engine, id: BucketId, count: int, resetTimer: bool, fault: Option<string>)
    requires e.Valid()
    ensures e.PopCount(id, count, resetTimer, fault).0.Valid()
    ensures e.PopCount(id, count, resetTimer, fault).0.maxAge == e.maxAge
  {
    TimerStepsValid(e, id);
  }

  /** Any sequence of operations keeps the engine valid; without a max age
      the timer table stays empty throughout. */
  lemma {:induction false} RunValid(e: Engine, ops: seq<Op>)
    requires e.Valid()
    ensures Run(e, ops).Valid()
    ensures e.maxAge.None? ==> Run(e, ops).timers == map[]
    decreases |ops|
  {
    if ops != [] {
      ApplyValid(e, ops[0]);
      RunValid(Apply(e, ops[0]), ops[1..]);
    }
  }

  /** Without a max age, `add_timer_if_first`, `clear_timer` and
      `reset_timer` leave the timer table as it is. */
  lemma TimersInertWithoutMaxAge(e: Engine, id: BucketId)
    requires e.maxAge.None?
    ensures e.AddTimerIfFirst(id).timers == e.timers
    ensures e.ClearTimer(id).timers == e.timers
    ensures e.ResetTimer(id) == e
  {
  }

  /** `add_item` starts a timer exactly when a max age is set and the table
      has no entry for the bucket, whether or not the persist succeeds; a
      second add then leaves the table unchanged. */
  lemma AddItemArmsOnce(e: Engine, id: BucketId, item: Item, fault: Option<string>, next: Item, nextFault: Option<string>)
    ensures var e' := e.AddItem(id, item, fault).0;
      && e'.timers == (if e.maxAge.Some? && id !in e.timers then e.timers[id := Timer(e.timersMade, false)] else e.timers)
      && (e.maxAge.Some? ==> id in e'.timers)
      && e'.AddItem(id, next, nextFault).0.timers == e'.timers
  {
  }

  /** `pop_count` with `reset_timer: true` and a max age removes the timer
      and starts a fresh one exactly when the bucket was not empty before
      the pop; on an empty bucket the entry is deleted and none is started;
      without `reset_timer` or a max age the timer table is untouched. */
  lemma PopCountTimer(e: Engine, id: BucketId, count: int, resetTimer: bool, fault: Option<string>)
    ensures var e' := e.PopCount(id, count, resetTimer, fault).0;
      e'.timers ==
        if !resetTimer || e.maxAge.None? then e.timers
        else if |e.Contents(id)| == 0 then e.timers - {id}
        else (e.timers - {id})[id := Timer(e.timersMade, false)]
  {
  }

  /** The emptiness test of `reset_timer` runs before the pop: a pop that
      drains a non-empty bucket leaves it with a fresh armed timer. */
  lemma DrainingPopKeepsTimer(e: Engine, id: BucketId, count: int)
    requires e.maxAge.Some? && 0 < |e.Contents(id)| <= count
    ensures var e' := e.PopCount(id, count, fault := None).0;
      && e'.Contents(id) == [] && id in e'.timers && !e'.timers[id].fired
  {
    PopCountTimer(e, id, count, true, None);
    var all := e.ResetTimer(id).Contents(id);
    assert all == e.Contents(id);
  }

  /** The timer a plain `pop_count(bucket_id, count)` starts on a non-empty
      bucket is a new one: its number differs from that of every timer
      made before, the one it replaces included. */
  lemma PopCountFreshTimer(e: Engine, id: BucketId, count: int, fault: Option<string>)
    requires e.Valid() && e.maxAge.Some? && |e.Contents(id)| > 0
    ensures var e' := e.PopCount(id, count, fault := fault).0;
      && id in e'.timers && !e'.timers[id].fired
      && forall x :: x in e.timers ==> e'.timers[id].serial != e.timers[x].serial
  {
    PopCountTimer(e, id, count, true, fault);
  }

  /** A firing timer calls every timeout-observer once, in registration
      order, with the bucket; its entry stays, so it cannot fire again and
      a later `add_item` starts no new timer. */
  lemma TimeoutKeepsEntry(e: Engine, id: BucketId, item: Item, fault: Option<string>)
    requires id in e.timers && !e.timers[id].fired
    ensures e.Timeout(id).log == e.log + Broadcast(e.timeoutCallbacks, id)
    ensures id in e.Timeout(id).timers && e.Timeout(id).timers[id].fired
    ensures e.Timeout(id).AddItem(id, item, fault).0.timers == e.Timeout(id).timers
  {
  }

  // ---------------------------------------------------------------------
  // Adding and the threshold rule
  // ---------------------------------------------------------------------

  /** A successful `add_item` appends the item at the tail of its bucket
      only, and then every full-observer is called once, in registration
      order, exactly when the bucket holds at least the threshold. */
  lemma AddItemThreshold(e: Engine, id: BucketId, item: Item)
    ensures var (e', outcome) := e.AddItem(id, item, None);
      && outcome == Pass
      && e'.Contents(id) == e.Contents(id) + [item]
      && (forall x :: x != id ==> e'.Contents(x) == e.Contents(x))
      && e'.log == e.log + (if |e.Contents(id)| + 1 >= e.threshold then Broadcast(e.fullCallbacks, id) else [])
  {
    var armed := e.AddTimerIfFirst(id);
    var stored := Append(armed.buckets, id, item);
    forall x ensures Items(Touch(stored, id), x) == Items(stored, x) {
    }
  }

  /** A failed persist fails `add_item` and runs no fullness check: the
      buckets and the calls are unchanged. */
  lemma AddItemFault(e: Engine, id: BucketId, item: Item, error: string)
    ensures var (e', outcome) := e.AddItem(id, item, Some(error));
      && outcome == Fail(error) && e'.buckets == e.buckets && e'.log == e.log
  {
  }

  /** `add_item` of each of `items` in turn into bucket `id`, each persisted. */
  function AddAll(e: Engine, id: BucketId, items: seq<Item>): Engine
    decreases |items|
  {
    if items == [] then e else AddAll(e.AddItem(id, items[0], None).0, id, items[1..])
  }

  /** Adds append in order, leave other buckets alone, and make a round of
      full-observer calls on every add that brings the bucket to the
      threshold or beyond. */
  lemma {:induction false} AddAllAppends(e: Engine, id: BucketId, items: seq<Item>)
    ensures AddAll(e, id, items).Contents(id) == e.Contents(id) + items
    ensures forall x :: x != id ==> AddAll(e, id, items).Contents(x) == e.Contents(x)
    ensures AddAll(e, id, items).log == e.log + FullRounds(e.fullCallbacks, id, |e.Contents(id)|, |items|, e.threshold)
    ensures AddAll(e, id, items).threshold == e.threshold && AddAll(e, id, items).fullCallbacks == e.fullCallbacks
    decreases |items|
  {
    if items != [] {
      var e' := AddStep(e, id, items);
      AddAllAppends(e', id, items[1..]);
      AppendHead(e.Contents(id), items);
      LogStep(e.log, e'.log, e.fullCallbacks, id, |e.Contents(id)|, |items|, e.threshold);
    }
  }

  /** The first add of `AddAll`, summed up for the induction in `AddAllAppends`. */
  lemma AddStep(e: Engine, id: BucketId, items: seq<Item>) returns (e': Engine)
    requires items != []
    ensures AddAll(e, id, items) == AddAll(e', id, items[1..])
    ensures e'.Contents(id) == e.Contents(id) + [items[0]]
    ensures forall x :: x != id ==> e'.Contents(x) == e.Contents(x)
    ensures e'.log == e.log + (if |e.Contents(id)| + 1 >= e.threshold then Broadcast(e.fullCallbacks, id) else [])
    ensures e'.threshold == e.threshold && e'.fullCallbacks == e.fullCallbacks
  {
    e' := e.AddItem(id, items[0], None).0;
    AddItemThreshold(e, id, items[0]);
  }

  /** Filling two empty buckets with fewer items than the threshold each
      calls no full-observer, and each bucket reads its items in order
      (with threshold 5: three items in bucket "1", then three in "2"). */
  lemma TwoBucketsBelowThreshold(e: Engine, xs: seq<Item>, ys: seq<Item>)
    requires e.Contents("1") == [] && e.Contents("2") == []
    requires |xs| < e.threshold && |ys| < e.threshold
    ensures var e' := AddAll(AddAll(e, "1", xs), "2", ys);
      && e'.log == e.log
      && e'.GetBucket("1", None).1 == Ok(xs)
      && e'.GetBucket("2", None).1 == Ok(ys)
  {
    var e1 := AddAll(e, "1", xs);
    AddAllAppends(e, "1", xs);
    FullRoundsBelow(e.fullCallbacks, "1", 0, |xs|, e.threshold);
    assert e1.log == e.log && e1.Contents("1") == xs && e1.Contents("2") == [];
    var e2 := AddAll(e1, "2", ys);
    AddAllAppends(e1, "2", ys);
    FullRoundsBelow(e1.fullCallbacks, "2", 0, |ys|, e1.threshold);
    assert e2.log == e.log && e2.Contents("1") == xs && e2.Contents("2") == ys;
    GetBucketReadOnly(e2, "1", None);
    GetBucketReadOnly(e2, "2", None);
  }

  /** Filling an empty bucket up to the threshold calls each full-observer
      once, on the last add. */
  lemma FullAtThreshold(e: Engine, id: BucketId, items: seq<Item>)
    requires e.Contents(id) == [] && 1 <= e.threshold == |items|
    ensures AddAll(e, id, items[..|items| - 1]).log == e.log
    ensures AddAll(e, id, items).log == e.log + Broadcast(e.fullCallbacks, id)
  {
    AddAllAppends(e, id, items);
    AddAllAppends(e, id, items[..|items| - 1]);
    FullRoundsBelow(e.fullCallbacks, id, 0, |items| - 1, e.threshold);
    FullRoundsReach(e.fullCallbacks, id, 0, |items|, e.threshold);
  }

  // ---------------------------------------------------------------------
  // Reading and removing
  // ---------------------------------------------------------------------

  /** `pop_count` with a count that is not negative yields the first
      `min(count, size)` items, in the order added, and leaves the rest:
      taken and left together are the bucket before. Past the end the entry
      becomes `nil`, which reads back as empty. Other buckets, the calls
      and the observers are unchanged. */
  lemma PopCountSplit(e: Engine, id: BucketId, count: int, resetTimer: bool)
    requires count >= 0
    ensures var (e', r) := e.PopCount(id, count, resetTimer, None);
      && r.Ok?
      && r.value + e'.Contents(id) == e.Contents(id)
      && |r.value| == (if count <= |e.Contents(id)| then count else |e.Contents(id)|)
      && (count > |e.Contents(id)| <==> e'.buckets[id].None?)
      && (forall x :: x != id ==> e'.Contents(x) == e.Contents(x))
      && e'.log == e.log
  {
    var reset := if resetTimer then e.ResetTimer(id) else e;
    assert reset.Contents(id) == e.Contents(id);
    forall x | x != id ensures reset.Contents(x) == e.Contents(x) {
    }
    PopSplit(e.Contents(id), count);
  }

  /** A negative count makes `Array#first` raise: `pop_count` fails and no
      bucket's items change. */
  lemma PopCountNegative(e: Engine, id: BucketId, count: int, resetTimer: bool)
    requires count < 0
    ensures var (e', r) := e.PopCount(id, count, resetTimer, None);
      && r == Err(NegativeCount)
      && (forall x :: e'.Contents(x) == e.Contents(x))
  {
    var reset := if resetTimer then e.ResetTimer(id) else e;
    forall x ensures reset.Contents(x) == e.Contents(x) {
    }
  }

  /** `pop_all` removes the bucket's timer first, even when the pop then
      fails; a successful pop yields every item in order and leaves the
      bucket empty and every other bucket as it was. */
  lemma PopAllDrains(e: Engine, id: BucketId, fault: Option<string>)
    ensures var (e', r) := e.PopAll(id, fault);
      && e'.timers == (if e.maxAge.Some? then e.timers - {id} else e.timers)
      && (fault.Some? ==> r == Err(fault.value) && e'.buckets == e.buckets)
      && (fault.None? ==>
            && r == Ok(e.Contents(id)) && e'.Contents(id) == []
            && (forall x :: x != id ==> e'.Contents(x) == e.Contents(x)))
      && e'.log == e.log
  {
  }

  /** `get_bucket` yields the items in the order added and changes no
      bucket's items and no timer. */
  lemma GetBucketReadOnly(e: Engine, id: BucketId, fault: Option<string>)
    ensures var (e', r) := e.GetBucket(id, fault);
      && r == (if fault.None? then Ok(e.Contents(id)) else Err(fault.value))
      && (forall x :: e'.Contents(x) == e.Contents(x))
      && e'.timers == e.timers && e'.log == e.log
  {
    forall x ensures Items(Touch(e.buckets, id), x) == Items(e.buckets, x) {
    }
  }

  /** `empty_bucket` clears the timer only once the storage clear has
      succeeded: on success the bucket reads empty and has no timer, other
      buckets are unchanged; on failure nothing changes. */
  lemma EmptyBucketClears(e: Engine, id: BucketId, fault: Option<string>)
    ensures var (e', outcome) := e.EmptyBucket(id, fault);
      if fault.None? then
        && outcome == Pass && e'.Contents(id) == []
        && e'.timers == (if e.maxAge.Some? then e.timers - {id} else e.timers)
        && (forall x :: x != id ==> e'.Contents(x) == e.Contents(x))
      else outcome == Fail(fault.value) && e' == e
  {
  }

  /** The pop examples on a bucket of three: `pop_count(2)` yields the
      first two and leaves the third; `pop_all` yields all three, after
      which the bucket reads `[]`. */
  lemma PopExamples(e: Engine, id: BucketId)
    requires |e.Contents(id)| == 3
    ensures var (e', r) := e.PopCount(id, 2, fault := None);
      && r == Ok(e.Contents(id)[..2]) && e'.GetBucket(id, None).1 == Ok([e.Contents(id)[2]])
    ensures var (e', r) := e.PopAll(id, None);
      && r == Ok(e.Contents(id)) && e'.GetBucket(id, None).1 == Ok([])
  {
    var c := e.Contents(id);
    PopCountSplit(e, id, 2, true);
    var (e', r) := e.PopCount(id, 2, true, None);
    assert r.value + e'.Contents(id) == c && |r.value| == 2;
    assert r.value == c[..2] && e'.Contents(id) == c[2..] == [c[2]];
    GetBucketReadOnly(e', id, None);
    var e'' := e.PopAll(id, None).0;
    GetBucketReadOnly(e'', id, None);
  }

  /** Registering an observer appends it: the earlier ones keep their
      order and are still called first. */
  lemma RegistrationAppends(e: Engine, o: Observer, id: BucketId)
    ensures e.OnBucketFull(o).fullCallbacks == e.fullCallbacks + [o]
    ensures e.OnBucketTimeout(o).timeoutCallbacks == e.timeoutCallbacks + [o]
    ensures Broadcast(e.OnBucketTimeout(o).timeoutCallbacks, id) == Broadcast(e.timeoutCallbacks, id) + [Call(o, id)]
  {
    BroadcastAppend(e.timeoutCallbacks, [o], id);
  }

  /** `Ordered::InMemory`: `ordered/base.rb` mixed with
      `ordered/database/hash.rb`. */
  class InMemory {
    var bucketThresholdSize: int
    var bucketMaxAge: Option<int>
    var onBucketFullCallbacks: seq<Observer>
    var onBucketTimeoutCallbacks: seq<Observer>
    var timers: map<BucketId, Timer>
    var timersMade: nat
    var buckets: map<BucketId, Slot>
    var calls: seq<Call>

    function State(): Engine
      reads this
    {
      Engine(bucketThresholdSize, bucketMaxAge, onBucketFullCallbacks, onBucketTimeoutCallbacks,
             timers, timersMade, buckets, calls)
    }

    /** `initialize`: `setup` and then the backend's set-up; omitted
        keywords take the class defaults. */
    constructor (bucketThresholdSize: int := BucketThresholdSizeDefault,
                 bucketMaxAge: Option<int> := Some(BucketMaxAgeDefault))
      ensures State() == Setup(bucketThresholdSize, bucketMaxAge)
    {
      this.bucketThresholdSize := bucketThresholdSize;
      this.bucketMaxAge := bucketMaxAge;
      onBucketFullCallbacks := [];
      onBucketTimeoutCallbacks := [];
      timers := map[];
      timersMade := 0;
      buckets := map[];
      calls := [];
    }

    method AddItem(id: BucketId, item: Item, fault: Option<string>) returns (r: Outcome)
      modifies this
      ensures (State(), r) == old(State()).AddItem(id, item, fault)
    {
      AddTimerIfFirst(id);
      if fault.Some? {
        r := Fail(fault.value);
      } else {
        AddItemToDb(id, item);
        r := Pass;
        CheckBucketFull(id);
      }
    }

    method PopCount(id: BucketId, count: int, resetTimer: bool := true, fault: Option<string>)
      returns (r: Result<seq<Item>>)
      modifies this
      ensures (State(), r) == old(State()).PopCount(id, count, resetTimer, fault)
    {
      if resetTimer {
        ResetTimer(id);
      }
      if fault.Some? {
        r := Err(fault.value);
      } else {
        r := PopCountFromDb(id, count);
      }
    }

    method PopAll(id: BucketId, fault: Option<string>) returns (r: Result<seq<Item>>)
      modifies this
      ensures (State(), r) == old(State()).PopAll(id, fault)
    {
      ClearTimer(id);
      if fault.Some? {
        r := Err(fault.value);
      } else {
        var all := PopAllFromDb(id);
        r := Ok(all);
      }
    }

    method OnBucketFull(observer: Observer)
      modifies this`onBucketFullCallbacks
      ensures State() == old(State()).OnBucketFull(observer)
    {
      onBucketFullCallbacks := onBucketFullCallbacks + [observer];
    }

    method OnBucketTimeout(observer: Observer)
      modifies this`onBucketTimeoutCallbacks
      ensures State() == old(State()).OnBucketTimeout(observer)
    {
      onBucketTimeoutCallbacks := onBucketTimeoutCallbacks + [observer];
    }

    method GetBucket(id: BucketId, fault: Option<string>) returns (r: Result<seq<Item>>)
      modifies this`buckets
      ensures (State(), r) == old(State()).GetBucket(id, fault)
    {
      if fault.Some? {
        r := Err(fault.value);
      } else {
        var items := GetBucketFromDb(id);
        r := Ok(items);
      }
    }

    method EmptyBucket(id: BucketId, fault: Option<string>) returns (r: Outcome)
      modifies this`buckets, this`timers
      ensures (State(), r) == old(State()).EmptyBucket(id, fault)
    {
      if fault.Some? {
        r := Fail(fault.value);
      } else {
        EmptyBucketInDb(id);
        ClearTimer(id);
        r := Pass;
      }
    }

    /** The armed timer of `id` fires and runs `timeout_callback(bucket_id)`. */
    method Timeout(id: BucketId)
      requires id in timers && !timers[id].fired
      modifies this`timers, this`calls
      ensures State() == old(State()).Timeout(id)
    {
      timers := timers[id := timers[id].(fired := true)];
      calls := NotifyAll(onBucketTimeoutCallbacks, id, calls);
    }

    /** The private `bucket_full?`. */
    method IsBucketFull(id: BucketId) returns (full: bool)
      modifies this`buckets
      ensures buckets == Touch(old(buckets), id)
      ensures full <==> |Items(old(buckets), id)| >= bucketThresholdSize
    {
      var size := BucketSizeFromDb(id);
      full := size >= bucketThresholdSize;
    }

    /** The private `bucket_empty?`. */
    method IsBucketEmpty(id: BucketId) returns (empty: bool)
      modifies this`buckets
      ensures buckets == Touch(old(buckets), id)
      ensures empty <==> Items(old(buckets), id) == []
    {
      var size := BucketSizeFromDb(id);
      empty := size == 0;
    }

    method CheckBucketFull(id: BucketId)
      modifies this`buckets, this`calls
      ensures State() == old(State()).CheckBucketFull(id)
    {
      var full := IsBucketFull(id);
      if full {
        calls := NotifyAll(onBucketFullCallbacks, id, calls);
      }
    }

    method StartTimer(id: BucketId)
      modifies this`timers, this`timersMade
      ensures State() == old(State()).StartTimer(id)
    {
      timers := timers[id := Timer(timersMade, false)];
      timersMade := timersMade + 1;
    }

    method AddTimerIfFirst(id: BucketId)
      modifies this`timers, this`timersMade
      ensures State() == old(State()).AddTimerIfFirst(id)
    {
      if bucketMaxAge.None? {
        return;
      }
      if id !in timers {
        StartTimer(id);
      }
    }

    method ClearTimer(id: BucketId)
      modifies this`timers
      ensures State() == old(State()).ClearTimer(id)
    {
      if bucketMaxAge.None? {
        return;
      }
      timers := timers - {id};
    }

    method ResetTimer(id: BucketId)
      modifies this`timers, this`timersMade, this`buckets
      ensures State() == old(State()).ResetTimer(id)
    {
      if bucketMaxAge.None? {
        return;
      }
      ClearTimer(id);
      var empty := IsBucketEmpty(id);
      if !empty {
        StartTimer(id);
      }
    }

    // ordered/database/hash.rb

    method PopAllFromDb(id: BucketId) returns (all: seq<Item>)
      modifies this`buckets
      ensures all == Items(old(buckets), id)
      ensures buckets == old(buckets)[id := Some([])]
    {
      all := BucketById(id);
      buckets := buckets[id := Some([])];
    }

    method PopCountFromDb(id: BucketId, count: int) returns (r: Result<seq<Item>>)
      modifies this`buckets
      ensures count < 0 ==> r == Err(NegativeCount) && buckets == Touch(old(buckets), id)
      ensures count >= 0 ==>
        && r == Ok(Taken(Items(old(buckets), id), count))
        && buckets == old(buckets)[id := Left(Items(old(buckets), id), count)]
    {
      var all := BucketById(id);
      if count < 0 {
        r := Err(NegativeCount);
        return;
      }
      r := Ok(Taken(all, count));
      buckets := buckets[id := Left(all, count)];
    }

    method BucketSizeFromDb(id: BucketId) returns (size: nat)
      modifies this`buckets
      ensures buckets == Touch(old(buckets), id)
      ensures size == |Items(old(buckets), id)|
    {
      var all := BucketById(id);
      size := |all|;
    }

    method AddItemToDb(id: BucketId, item: Item)
      modifies this`buckets
      ensures buckets == Append(old(buckets), id, item)
    {
      var all := BucketById(id);
      buckets := buckets[id := Some(all + [item])];
    }

    method GetBucketFromDb(id: BucketId) returns (all: seq<Item>)
      modifies this`buckets
      ensures buckets == Touch(old(buckets), id)
      ensures all == Items(old(buckets), id)
    {
      all := BucketById(id);
    }

    method EmptyBucketInDb(id: BucketId)
      modifies this`buckets
      ensures buckets == old(buckets)[id := Some([])]
    {
      buckets := buckets[id := Some([])];
    }

    /** `bucket_by_id`: the bucket's array, storing `[]` in place of a
        missing entry or `nil`. */
    method BucketById(id: BucketId) returns (all: seq<Item>)
      modifies this`buckets
      ensures buckets == Touch(old(buckets), id)
      ensures all == Items(old(buckets), id)
    {
      if id !in buckets || buckets[id].None? {
        buckets := buckets[id := Some([])];
      }
      all := buckets[id].value;
    }
  }
}
