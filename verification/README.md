# em-bucketer bucket engines in Dafny

em-bucketer collects items into named buckets on top of EventMachine. It calls
the registered *full* observers whenever an add leaves a bucket at or above a
size threshold. It calls the *timeout* observers when a bucket has held items
for longer than a maximum age.

This project models the in-process engines of its two families:

- **Unordered** (`lib/em-bucketer/base.rb` over `lib/em-bucketer/database/hash.rb`,
  module `UnorderedBucketer`, class `Bucketer`).
  - A bucket maps item ids to items. A Ruby `Hash` remembers insertion order,
    so a bucket is modelled as a sequence of entries with distinct ids
    (module `UnorderedStore`).
  - Writing an existing id replaces its item where it stands; writing a new
    id appends it.
  - A timer is membership of `@buckets_with_timers` plus an `EM.add_timer`
    block that has been scheduled but has not run yet.
- **Standalone in-memory bucketer** (`lib/em-bucketer/in_memory.rb`, module
  `InMemoryBucketer`, class `InMemory`).
  - The same bucket semantics, with no timers and a backend that cannot fail.
  - It is proved to behave like the unordered engine run without a max age:
    `add_item`, `on_bucket_full`, `get_bucket`, `empty_bucket` and
    `get_and_empty_bucket` each agree step by step.
- **Ordered** (`lib/em-bucketer/ordered/base.rb` over
  `lib/em-bucketer/ordered/database/hash.rb`, as composed by
  `lib/em-bucketer/ordered/in_memory.rb`; module `OrderedBucketer`, class
  `InMemory`).
  - A bucket is a FIFO array, or `nil` after a pop past its end (module
    `OrderedStore`).
  - `@timers` maps a bucket to a timer that is armed, or fired but not yet
    removed. Deleting an entry cancels its timer.

Each engine is a datatype `Engine` whose member functions are the
operations. The class of each module keeps the same state in fields, and each
of its methods is proved to move that state exactly as the matching function
does. The lemmas state what the source promises about those functions.

Modelling choices:

- **Completions and failure.** `EM::Completion`s resolve synchronously. An
  operation that waits on a backend completion takes `fault`: `None` is the
  in-memory backend, which never fails. `Some(e)` stands for a backend whose
  completion fails with `e`; it changes nothing.
- **Observers.** Each observer call is recorded as `Call(observer, bucket)`
  at the end of a log.
- **Timers.** A timer firing is an explicit step, `Timeout`, with no clock.
- **Items.** The stored payload is an uninterpreted type `Item`.

In three places the code behaves in a way that is easy to misread; the
model follows the code:

- `base.rb:31` runs `check_bucket_full` outside the persist callback. The
  unordered `add_item` therefore checks fullness even when the persist fails.
  The ordered `add_item` checks only after a successful persist.
- `reset_timer` (`ordered/base.rb:34`) runs before `pop_count_from_db`
  (`ordered/base.rb:37`). With the in-memory backend its emptiness test
  therefore sees the size *before* the pop. A pop that drains a non-empty
  bucket leaves a fresh armed timer on the now-empty bucket, rather than no
  timer (`OrderedBucketer.DrainingPopKeepsTimer`).
- The unordered `clear_timer` (`base.rb:149-151`) only removes set
  membership. A block already scheduled still runs and calls the timeout
  observers. A block that has run leaves the set as it was, so the bucket is
  not re-armed until it is emptied.

## Model

| member | source | states |
|---|---|---|
| Common.Broadcast | lib/em-bucketer/base.rb:128-136 | the calls made by an `each` over the observers: exactly one per observer (which call goes to which observer is `Common.BroadcastAt`) |
| Common.BroadcastAt | lib/em-bucketer/base.rb:128-136 | the calls go to the observers in registration order, all with the same bucket id |
| Common.BroadcastAppend | lib/em-bucketer/base.rb:44-46 | the calls to observers registered earlier come first and are unchanged when more observers are registered |
| Common.NotifyAll | lib/em-bucketer/base.rb:131-133 | the `each` loop appends exactly the calls of `Broadcast` to the log |
| Common.FullRoundsBelow | lib/em-bucketer/base.rb:122-136 | adds that keep a bucket below the threshold call no full observer |
| Common.FullRoundsReach | lib/em-bucketer/base.rb:122-136 | the add that brings an unfilled bucket exactly to the threshold calls every full observer once |
| Common.LogStep | lib/em-bucketer/base.rb:122-136 | the calls of one add followed by those of the remaining adds are the calls of all the adds |
| UnorderedStore.Values | lib/em-bucketer/base.rb:76 | `bucket.values`: the items in the insertion order of their ids (definition) |
| UnorderedStore.Stored | lib/em-bucketer/database/hash.rb:8-14 | what `@buckets[bucket_id] ||= {}` yields: the stored hash, or an empty one for an untouched bucket (definition) |
| UnorderedStore.UpsertAll | lib/em-bucketer/database/hash.rb:16-23 | the bucket after a run of `add_bucket_to_db` writes, one after the other (definition) |
| UnorderedStore.LastWrite | lib/em-bucketer/database/hash.rb:19-20 | the item of the last write of an id in a run of writes, if any: the reference for `LastWriteWins` (definition) |
| UnorderedStore.FirstInserted | lib/em-bucketer/database/hash.rb:19-20 | the keys in the order a Ruby hash keeps them: a new id goes last, a rewritten one stays put; the reference for `UpsertAllOrder` (definition) |
| UnorderedStore.Ids | lib/em-bucketer/database/hash.rb:16-23 | the ids of a bucket, one per entry, at the entry's position |
| UnorderedStore.Lookup | lib/em-bucketer/database/hash.rb:16-23 | looking up an id finds an item exactly when the id is among the bucket's ids |
| UnorderedStore.Upsert | lib/em-bucketer/database/hash.rb:19-20 | `bucket[item_id] = item` keeps the id list when the id is present and appends the id when it is new |
| UnorderedStore.UpsertLookup | lib/em-bucketer/database/hash.rb:19-20 | after a write the written id holds the new item and every other id holds what it held |
| UnorderedStore.UpsertKeepsUnique | lib/em-bucketer/database/hash.rb:19-20 | a write never creates a second entry for an id |
| UnorderedStore.UpsertSize | lib/em-bucketer/database/hash.rb:16-23 | writing an existing id keeps the size; writing a new id adds exactly one |
| UnorderedStore.UpsertAt | lib/em-bucketer/database/hash.rb:19-20 | entry by entry, a write replaces the entry holding the id where it stands and leaves the others in place; a new id goes last |
| UnorderedStore.UpsertNew | lib/em-bucketer/database/hash.rb:19-20 | writing an id the bucket lacks appends exactly that entry |
| UnorderedStore.UpsertAllOrder | lib/em-bucketer/in_memory.rb:131-135 | after any writes, the ids are listed in the order they were first written; overwriting never moves an id |
| UnorderedStore.LastWriteWins | lib/em-bucketer/in_memory.rb:131-135 | after any writes, every id holds the item written to it last, and ids never written keep their items |
| UnorderedStore.UpsertAllIds | lib/em-bucketer/database/hash.rb:19-20 | after any writes the ids stay distinct and are those present before plus those written |
| UnorderedStore.Materialize | lib/em-bucketer/database/hash.rb:11 | `@buckets[bucket_id] \|\|= {}` creates an entry for the bucket and keeps its contents |
| UnorderedStore.MaterializeKeeps | lib/em-bucketer/database/hash.rb:11 | creating the entry changes no bucket's contents |
| UnorderedStore.Put | lib/em-bucketer/database/hash.rb:19-20 | the write upserts into the named bucket |
| UnorderedStore.PutKeeps | lib/em-bucketer/database/hash.rb:19-20 | the write leaves every other bucket's contents unchanged |
| UnorderedBucketer.Setup | lib/em-bucketer/base.rb:3-10 | `setup`: the threshold and max age as given, no bucket, no observer, an empty timer set (definition) |
| UnorderedBucketer.Engine.AddTimerIfFirst | lib/em-bucketer/base.rb:138-147 | with a max age and a bucket not yet in the set, add it and schedule one timer block; otherwise nothing (definition) |
| UnorderedBucketer.Engine.ClearTimer | lib/em-bucketer/base.rb:149-151 | removes the bucket from the timer set; a scheduled block stays scheduled (definition) |
| UnorderedBucketer.Engine.CheckBucketFull | lib/em-bucketer/base.rb:122-136 | creates the entry, then calls every full observer with the bucket when its size is at least the threshold (definition) |
| UnorderedBucketer.Engine.AddItem | lib/em-bucketer/base.rb:22-33 | arms the timer, upserts unless the persist fails, then checks fullness either way; the outcome is the persist's (definition) |
| UnorderedBucketer.Engine.OnBucketFull | lib/em-bucketer/base.rb:44-46 | appends a full observer (definition) |
| UnorderedBucketer.Engine.OnBucketTimeout | lib/em-bucketer/base.rb:62-64 | appends a timeout observer (definition) |
| UnorderedBucketer.Engine.GetBucket | lib/em-bucketer/base.rb:72-81 | the bucket's values, creating an empty entry; a failed read yields the error and changes nothing (definition) |
| UnorderedBucketer.Engine.EmptyBucket | lib/em-bucketer/base.rb:108-118 | the bucket becomes empty and then its timer membership is cleared; a failure changes nothing (definition) |
| UnorderedBucketer.Engine.GetAndEmptyBucket | lib/em-bucketer/base.rb:89-102 | get, then empty, then yield what was read; a failure of either step fails the whole (definition) |
| UnorderedBucketer.Engine.Timeout | lib/em-bucketer/base.rb:141-145 | a scheduled block runs: one block is used up and every timeout observer is called with the bucket (definition) |
| UnorderedBucketer.SetupValid | lib/em-bucketer/base.rb:3-10 | a fresh engine has no timer and every bucket reads empty |
| UnorderedBucketer.ApplyValid | lib/em-bucketer/base.rb:22-151 | every operation keeps ids distinct in every bucket, and keeps the engine free of timers when there is no max age |
| UnorderedBucketer.AddItemValid | lib/em-bucketer/base.rb:22-33 | `add_item` keeps the engine valid |
| UnorderedBucketer.RunValid | lib/em-bucketer/base.rb:139 | any sequence of operations keeps the engine valid; with no max age, no timer is ever scheduled and the set never grows |
| UnorderedBucketer.AddItemArmsOnlyWhenNew | lib/em-bucketer/base.rb:138-147 | `add_item` schedules a timer block exactly when a max age is set and the bucket was not in the set; the set then holds the bucket |
| UnorderedBucketer.AddItemContents | lib/em-bucketer/base.rb:22-33 | `add_item` upserts into its bucket exactly when the persist succeeds |
| UnorderedBucketer.AddItemStores | lib/em-bucketer/base.rb:22-33 | `add_item` upserts into its bucket only, and its outcome is success exactly when the persist succeeds |
| UnorderedBucketer.AddItemThreshold | lib/em-bucketer/base.rb:31 | after `add_item`, with or without a failed persist, every full observer is called once, in order, exactly when the bucket's size is at least the threshold |
| UnorderedBucketer.FullOnEveryAddWhileOver | lib/em-bucketer/base.rb:35-46 | once at or over the threshold, every further add calls the full observers again |
| UnorderedBucketer.GetBucketReadOnly | lib/em-bucketer/base.rb:72-81 | `get_bucket` yields the bucket's values, or the backend's error; it changes no contents, no timer and no observer state |
| UnorderedBucketer.EmptyBucketClears | lib/em-bucketer/base.rb:108-118 | a successful `empty_bucket` empties the bucket and then removes it from the timer set, touching no other bucket; a failed one changes nothing |
| UnorderedBucketer.EmptyBucketIdempotent | lib/em-bucketer/database/hash.rb:33-39 | emptying twice is the same as emptying once |
| UnorderedBucketer.GetAndEmptyBucketSpec | lib/em-bucketer/base.rb:89-102 | `get_and_empty_bucket` yields the contents read before the emptying and leaves the bucket empty; it fails when either step fails, and a failed read changes nothing |
| UnorderedBucketer.EmptyThenAddRearms | lib/em-bucketer/base.rb:149-151 | after a successful `empty_bucket`, the next `add_item` schedules a new timer block |
| UnorderedBucketer.TimeoutLeavesSetAlone | lib/em-bucketer/base.rb:141-145 | a timer block calls every timeout observer once with the bucket and leaves the set alone, so a later `add_item` schedules nothing |
| UnorderedBucketer.RegistrationAppends | lib/em-bucketer/base.rb:44-46 | `on_bucket_full` and `on_bucket_timeout` append; earlier observers are still called first |
| UnorderedBucketer.AddNewId | lib/em-bucketer/base.rb:22-33 | adding an id the bucket lacks appends its entry, and calls the full observers exactly when the grown size reaches the threshold |
| UnorderedBucketer.AddDistinctThreshold | lib/em-bucketer/base.rb:22-33 | adding distinct new ids in turn appends their values in order and calls the full observers on exactly those adds that reach the threshold |
| UnorderedBucketer.AddDistinctValues | lib/em-bucketer/base.rb:22-33 | adding distinct new ids in turn appends their entries in order, so the values read back in the order added |
| UnorderedBucketer.AddDistinctLog | lib/em-bucketer/base.rb:22-33 | adding distinct new ids in turn calls the full observers on exactly those adds that reach the threshold |
| UnorderedBucketer.FullExactlyAtThreshold | lib/em-bucketer/base.rb:128-136 | filling an empty bucket with as many distinct items as the threshold calls nobody before the last add and each full observer once on it |
| UnorderedBucketer.Bucketer.constructor | lib/em-bucketer/base.rb:3-10 | starts at `Setup`: no buckets, no observers, no timers |
| UnorderedBucketer.Bucketer.AddItem | lib/em-bucketer/base.rb:22-33 | arms, persists and checks fullness, ending in the state and outcome of `Engine.AddItem` |
| UnorderedBucketer.Bucketer.OnBucketFull | lib/em-bucketer/base.rb:44-46 | appends the observer to the full-observer list |
| UnorderedBucketer.Bucketer.OnBucketTimeout | lib/em-bucketer/base.rb:62-64 | appends the observer to the timeout-observer list |
| UnorderedBucketer.Bucketer.GetBucket | lib/em-bucketer/base.rb:72-81 | yields the bucket's values as `Engine.GetBucket` does, changing only the lazily created entry |
| UnorderedBucketer.Bucketer.GetAndEmptyBucket | lib/em-bucketer/base.rb:89-102 | reads, then empties, as `Engine.GetAndEmptyBucket` |
| UnorderedBucketer.Bucketer.EmptyBucket | lib/em-bucketer/base.rb:108-118 | empties the bucket, then clears the timer, only on success |
| UnorderedBucketer.Bucketer.Timeout | lib/em-bucketer/base.rb:141-145 | the scheduled block runs: it consumes one scheduled block and calls every timeout observer in order |
| UnorderedBucketer.Bucketer.CheckBucketFull | lib/em-bucketer/base.rb:122-136 | queries the size and calls every full observer exactly when it is at least the threshold |
| UnorderedBucketer.Bucketer.AddTimerIfFirst | lib/em-bucketer/base.rb:138-147 | with a max age, adds the bucket to the set and schedules a block only when it was not yet in the set |
| UnorderedBucketer.Bucketer.ClearTimer | lib/em-bucketer/base.rb:149-151 | removes the bucket from the set and nothing else |
| UnorderedBucketer.Bucketer.BucketSizeFromDb | lib/em-bucketer/database/hash.rb:8-14 | reports the bucket's size, 0 for an untouched bucket, and creates its entry |
| UnorderedBucketer.Bucketer.AddBucketToDb | lib/em-bucketer/database/hash.rb:16-23 | upserts the item into the bucket and succeeds |
| UnorderedBucketer.Bucketer.GetBucketFromDb | lib/em-bucketer/database/hash.rb:25-31 | yields the bucket unchanged, creating its entry |
| UnorderedBucketer.Bucketer.EmptyBucketInDb | lib/em-bucketer/database/hash.rb:33-39 | resets only the named bucket to empty and succeeds |
| InMemoryBucketer.Setup | lib/em-bucketer/in_memory.rb:24-29 | `initialize`: the threshold and max age as given, no bucket, no observer (definition) |
| InMemoryBucketer.Engine.CheckBucketFull | lib/em-bucketer/in_memory.rb:109-123 | creates the entry, then calls every full observer when the size is at least the threshold (definition) |
| InMemoryBucketer.Engine.AddItem | lib/em-bucketer/in_memory.rb:41-47 | upserts into the bucket, then checks fullness (definition) |
| InMemoryBucketer.Engine.OnBucketFull | lib/em-bucketer/in_memory.rb:58-60 | appends a full observer (definition) |
| InMemoryBucketer.Engine.GetBucket | lib/em-bucketer/in_memory.rb:68-75 | the bucket's values, creating an empty entry (definition) |
| InMemoryBucketer.Engine.EmptyBucket | lib/em-bucketer/in_memory.rb:98-105 | the bucket becomes `{}` (definition) |
| InMemoryBucketer.Engine.GetAndEmptyBucket | lib/em-bucketer/in_memory.rb:83-92 | get, then empty, then yield what was read (definition) |
| InMemoryBucketer.RegistrationAppends | lib/em-bucketer/in_memory.rb:58-60 | registration appends the observer and changes nothing else; earlier observers are still called first |
| InMemoryBucketer.Default | lib/em-bucketer/in_memory.rb:14-15 | with the keywords omitted: threshold 1000, max age 3600, no observer, every bucket empty |
| InMemoryBucketer.AddItemUpserts | lib/em-bucketer/in_memory.rb:131-135 | an existing id keeps size and id order and takes the new item; a new id is appended; ids stay distinct; other buckets are untouched |
| InMemoryBucketer.AddItemThreshold | lib/em-bucketer/in_memory.rb:41-47 | after each add, every full observer is called once, in order, exactly when the size is at least the threshold |
| InMemoryBucketer.GetBucketReadOnly | lib/em-bucketer/in_memory.rb:68-75 | `get_bucket` yields the values in insertion order and changes no contents; an untouched bucket yields `[]` and gains an entry |
| InMemoryBucketer.EmptyThenGet | lib/em-bucketer/in_memory.rb:98-105 | after `empty_bucket` the bucket reads `[]`, other buckets are unchanged, and emptying again changes nothing |
| InMemoryBucketer.GetAndEmptyBucketSpec | lib/em-bucketer/in_memory.rb:83-92 | yields the contents before emptying and leaves the bucket empty, touching no other bucket |
| InMemoryBucketer.AddAllOrder | lib/em-bucketer/in_memory.rb:68-75 | after any adds, the ids are in order of first insertion, each with the item added last; a bucket that listed each id once still does |
| InMemoryBucketer.AddItemAgrees | lib/em-bucketer/in_memory.rb:41-47 | `add_item` does what the `base.rb` engine does without a max age and with a backend that never fails |
| InMemoryBucketer.GetBucketAgrees | lib/em-bucketer/in_memory.rb:68-75 | `get_bucket` yields and changes what the `base.rb` engine does |
| InMemoryBucketer.EmptyBucketAgrees | lib/em-bucketer/in_memory.rb:83-105 | `empty_bucket` and `get_and_empty_bucket` agree with the `base.rb` engine |
| InMemoryBucketer.OnBucketFullAgrees | lib/em-bucketer/in_memory.rb:58-60 | registering a full observer keeps the two engines in agreement |
| InMemoryBucketer.AddAllAgrees | lib/em-bucketer/in_memory.rb:41-47 | any sequence of adds agrees with the `base.rb` engine |
| InMemoryBucketer.FullExactlyAtThreshold | lib/em-bucketer/in_memory.rb:109-123 | with threshold n, n distinct adds to an empty bucket call nobody before the n-th add and each full observer once on it |
| InMemoryBucketer.InMemory.constructor | lib/em-bucketer/in_memory.rb:24-29 | keyword defaults 1000 and 3600; empty buckets and no observers |
| InMemoryBucketer.InMemory.AddItem | lib/em-bucketer/in_memory.rb:41-47 | persists, then checks fullness, as `Engine.AddItem` |
| InMemoryBucketer.InMemory.OnBucketFull | lib/em-bucketer/in_memory.rb:58-60 | appends the observer |
| InMemoryBucketer.InMemory.GetBucket | lib/em-bucketer/in_memory.rb:68-75 | yields the bucket's values, creating its entry |
| InMemoryBucketer.InMemory.GetAndEmptyBucket | lib/em-bucketer/in_memory.rb:83-92 | reads, then empties, yielding what was read |
| InMemoryBucketer.InMemory.EmptyBucket | lib/em-bucketer/in_memory.rb:98-105 | resets the bucket to empty |
| InMemoryBucketer.InMemory.IsBucketFull | lib/em-bucketer/in_memory.rb:109-113 | true exactly when the size is at least the threshold |
| InMemoryBucketer.InMemory.CheckBucketFull | lib/em-bucketer/in_memory.rb:115-123 | calls every full observer exactly when the bucket is full |
| InMemoryBucketer.InMemory.BucketSizeFromDb | lib/em-bucketer/in_memory.rb:126-129 | reports the size, 0 for an untouched bucket, and creates its entry |
| InMemoryBucketer.InMemory.AddBucketToDb | lib/em-bucketer/in_memory.rb:131-135 | upserts the item |
| InMemoryBucketer.InMemory.GetBucketFromDb | lib/em-bucketer/in_memory.rb:137-140 | yields the bucket, creating its entry |
| InMemoryBucketer.InMemory.EmptyBucketInDb | lib/em-bucketer/in_memory.rb:142-145 | resets only the named bucket |
| OrderedStore.Read | lib/em-bucketer/ordered/database/hash.rb:58-60 | a stored `nil` reads as an empty array (definition) |
| OrderedStore.Items | lib/em-bucketer/ordered/database/hash.rb:58-60 | the items `bucket_by_id` yields: empty for an untouched or `nil` bucket (definition) |
| OrderedStore.Taken | lib/em-bucketer/ordered/database/hash.rb:22 | `all.first(count)`: the first `count` items, or all of them (definition) |
| OrderedStore.Left | lib/em-bucketer/ordered/database/hash.rb:23 | `all[count..-1]`: the rest, `[]` at the size, `nil` past it (definition) |
| OrderedStore.Touch | lib/em-bucketer/ordered/database/hash.rb:58-60 | `bucket_by_id` turns a missing or `nil` entry into an array and changes no other entry and no bucket's items |
| OrderedStore.Append | lib/em-bucketer/ordered/database/hash.rb:35-41 | the item goes at the tail of the named bucket; other buckets keep their items |
| OrderedStore.PopSplit | lib/em-bucketer/ordered/database/hash.rb:18-26 | the popped items followed by the items left are the bucket before; the popped part has `min(count, size)` items; the rest is `nil` exactly when `count` exceeds the size |
| OrderedBucketer.Engine.StartTimer | lib/em-bucketer/ordered/base.rb:150 | `EM::Timer.new`: a new armed timer, numbered after every earlier one (definition) |
| OrderedBucketer.Engine.AddTimerIfFirst | lib/em-bucketer/ordered/base.rb:148-151 | with a max age, start a timer unless the bucket has one (definition) |
| OrderedBucketer.Engine.ClearTimer | lib/em-bucketer/ordered/base.rb:161-165 | with a max age, delete (and so cancel) the bucket's timer (definition) |
| OrderedBucketer.Engine.ResetTimer | lib/em-bucketer/ordered/base.rb:167-173 | with a max age, clear the timer, then start a new one unless the bucket is empty (definition) |
| OrderedBucketer.Engine.CheckBucketFull | lib/em-bucketer/ordered/base.rb:126-146 | reads the size through `bucket_by_id`, then calls every full observer when it is at least the threshold (definition) |
| OrderedBucketer.Engine.AddItem | lib/em-bucketer/ordered/base.rb:14-25 | arms the timer, then appends; only a successful append checks fullness (definition) |
| OrderedBucketer.Engine.PopCount | lib/em-bucketer/ordered/base.rb:33-43 | resets the timer unless told not to (the default resets), then takes `first(count)` and stores the rest (definition) |
| OrderedBucketer.Engine.PopAll | lib/em-bucketer/ordered/base.rb:50-60 | clears the timer, then takes every item and stores an empty array (definition) |
| OrderedBucketer.Engine.OnBucketFull | lib/em-bucketer/ordered/base.rb:69 | appends a full observer (definition) |
| OrderedBucketer.Engine.OnBucketTimeout | lib/em-bucketer/ordered/base.rb:81-83 | appends a timeout observer (definition) |
| OrderedBucketer.Engine.GetBucket | lib/em-bucketer/ordered/base.rb:89-91 | the items, through `bucket_by_id` (definition) |
| OrderedBucketer.Engine.EmptyBucket | lib/em-bucketer/ordered/base.rb:96-106 | the bucket becomes `[]`, then its timer is cleared; a failure changes nothing (definition) |
| OrderedBucketer.Engine.Timeout | lib/em-bucketer/ordered/base.rb:153-159 | an armed timer fires: every timeout observer is called with the bucket (definition) |
| OrderedBucketer.Setup | lib/em-bucketer/ordered/base.rb:3-9 | `setup`: the threshold and max age as given, no observer, an empty timer table, and an empty store in place of the `setup_db` the in-memory ordered files do not define (definition) |
| OrderedBucketer.Default | lib/em-bucketer/ordered/in_memory.rb:10-11 | with the keywords omitted: threshold 1000, max age 3600, no observer, no timer, every bucket reads `[]` |
| OrderedBucketer.SetupValid | lib/em-bucketer/ordered/base.rb:3-9 | a fresh engine is valid, has an empty timer table, and every bucket reads empty |
| OrderedBucketer.TimerStepsValid | lib/em-bucketer/ordered/base.rb:148-173 | the timer steps keep the engine valid |
| OrderedBucketer.ApplyValid | lib/em-bucketer/ordered/base.rb:14-173 | every operation keeps the engine valid and its max age fixed |
| OrderedBucketer.AddItemValid | lib/em-bucketer/ordered/base.rb:14-25 | `add_item` keeps the engine valid and its max age fixed |
| OrderedBucketer.PopCountValid | lib/em-bucketer/ordered/base.rb:33-43 | `pop_count` keeps the engine valid and its max age fixed |
| OrderedBucketer.RunValid | lib/em-bucketer/ordered/base.rb:149 | any sequence of operations keeps the engine valid; without a max age the timer table stays empty |
| OrderedBucketer.TimersInertWithoutMaxAge | lib/em-bucketer/ordered/base.rb:149-173 | without a max age, `add_timer_if_first`, `clear_timer` and `reset_timer` leave the timer table as it is |
| OrderedBucketer.AddItemArmsOnce | lib/em-bucketer/ordered/base.rb:148-151 | `add_item` starts a timer exactly when a max age is set and the table has no entry for the bucket; a second add leaves the table unchanged |
| OrderedBucketer.PopCountTimer | lib/em-bucketer/ordered/base.rb:33-34 | with `reset_timer: true` and a max age, the entry is deleted and a fresh timer started exactly when the bucket was non-empty before the pop; on an empty bucket the entry is deleted and none started; without `reset_timer` or a max age the table is untouched |
| OrderedBucketer.DrainingPopKeepsTimer | lib/em-bucketer/ordered/base.rb:167-173 | a resetting pop that drains a non-empty bucket leaves it empty with a fresh armed timer |
| OrderedBucketer.PopCountFreshTimer | lib/em-bucketer/ordered/base.rb:167-173 | the timer a plain `pop_count` starts on a non-empty bucket differs from every timer made before it |
| OrderedBucketer.TimeoutKeepsEntry | lib/em-bucketer/ordered/base.rb:153-159 | a firing timer calls every timeout observer once, in order; its entry stays, so it cannot fire again and a later add starts no timer |
| OrderedBucketer.AddItemThreshold | lib/em-bucketer/ordered/base.rb:18-20 | a successful add appends at the tail of its bucket only and calls every full observer once, in order, exactly when the size is at least the threshold |
| OrderedBucketer.AddItemFault | lib/em-bucketer/ordered/base.rb:21-23 | a failed persist fails the completion and runs no full check |
| OrderedBucketer.AddAllAppends | lib/em-bucketer/ordered/base.rb:62-66 | adds append in order, touch no other bucket, and make a round of full-observer calls on every add at or over the threshold |
| OrderedBucketer.TwoBucketsBelowThreshold | lib/em-bucketer/ordered/base.rb:138-146 | filling two empty buckets with fewer items than the threshold calls no full observer, and each bucket reads its items in order |
| OrderedBucketer.FullAtThreshold | lib/em-bucketer/ordered/base.rb:138-146 | filling an empty bucket up to the threshold calls each full observer once, on the last add |
| OrderedBucketer.PopCountSplit | lib/em-bucketer/ordered/base.rb:33-43 | `pop_count` yields the first `min(count, size)` items; yielded followed by remaining is the bucket before; past the end the entry becomes `nil`; other buckets and the observer calls are unchanged (the timer is `OrderedBucketer.PopCountTimer`'s) |
| OrderedBucketer.PopCountNegative | lib/em-bucketer/ordered/database/hash.rb:22 | a negative count makes the pop fail without changing any bucket's items |
| OrderedBucketer.PopAllDrains | lib/em-bucketer/ordered/base.rb:50-60 | `pop_all` removes the timer first, even when the pop then fails; on success it yields every item in order and empties only that bucket |
| OrderedBucketer.GetBucketReadOnly | lib/em-bucketer/ordered/base.rb:89-91 | `get_bucket` yields the items, or the backend's error, and changes no bucket's items and no timer |
| OrderedBucketer.EmptyBucketClears | lib/em-bucketer/ordered/base.rb:96-106 | on success the bucket reads empty and its timer is gone, other buckets unchanged; on failure nothing changes |
| OrderedBucketer.PopExamples | lib/em-bucketer/ordered/base.rb:33-60 | on a bucket of three, `pop_count(2)` yields the first two and leaves the third; `pop_all` yields all three and then the bucket reads `[]` |
| OrderedBucketer.RegistrationAppends | lib/em-bucketer/ordered/base.rb:69-83 | registration appends; earlier timeout observers are still called first |
| OrderedBucketer.InMemory.constructor | lib/em-bucketer/ordered/in_memory.rb:20-23 | keyword defaults 1000 and 3600; `setup`, then an empty store |
| OrderedBucketer.InMemory.AddItem | lib/em-bucketer/ordered/base.rb:14-25 | arms, persists and, only on success, checks fullness, as `Engine.AddItem` |
| OrderedBucketer.InMemory.PopCount | lib/em-bucketer/ordered/base.rb:33-43 | optionally resets the timer, then pops, as `Engine.PopCount` |
| OrderedBucketer.InMemory.PopAll | lib/em-bucketer/ordered/base.rb:50-60 | clears the timer, then pops everything |
| OrderedBucketer.InMemory.OnBucketFull | lib/em-bucketer/ordered/base.rb:69 | appends the observer |
| OrderedBucketer.InMemory.OnBucketTimeout | lib/em-bucketer/ordered/base.rb:81-83 | appends the observer |
| OrderedBucketer.InMemory.GetBucket | lib/em-bucketer/ordered/base.rb:89-91 | yields the bucket's items |
| OrderedBucketer.InMemory.EmptyBucket | lib/em-bucketer/ordered/base.rb:96-106 | empties, then clears the timer, only on success |
| OrderedBucketer.InMemory.Timeout | lib/em-bucketer/ordered/base.rb:153-159 | the armed timer fires: marked fired, every timeout observer called in order |
| OrderedBucketer.InMemory.IsBucketFull | lib/em-bucketer/ordered/base.rb:126-130 | true exactly when the size is at least the threshold |
| OrderedBucketer.InMemory.IsBucketEmpty | lib/em-bucketer/ordered/base.rb:132-136 | true exactly when the bucket holds no item |
| OrderedBucketer.InMemory.CheckBucketFull | lib/em-bucketer/ordered/base.rb:138-146 | calls every full observer exactly when the bucket is full |
| OrderedBucketer.InMemory.StartTimer | lib/em-bucketer/ordered/base.rb:171 | stores a new armed timer for the bucket |
| OrderedBucketer.InMemory.AddTimerIfFirst | lib/em-bucketer/ordered/base.rb:148-151 | with a max age, starts a timer only when the table has none for the bucket |
| OrderedBucketer.InMemory.ClearTimer | lib/em-bucketer/ordered/base.rb:161-165 | with a max age, deletes (cancels) the bucket's timer |
| OrderedBucketer.InMemory.ResetTimer | lib/em-bucketer/ordered/base.rb:167-173 | with a max age, clears the timer and starts a fresh one unless the bucket is empty |
| OrderedBucketer.InMemory.PopAllFromDb | lib/em-bucketer/ordered/database/hash.rb:9-16 | yields the whole bucket and leaves it `[]` |
| OrderedBucketer.InMemory.PopCountFromDb | lib/em-bucketer/ordered/database/hash.rb:18-26 | yields the first `count` items and stores the rest (`nil` past the end); a negative count fails |
| OrderedBucketer.InMemory.BucketSizeFromDb | lib/em-bucketer/ordered/database/hash.rb:28-33 | reports the length, 0 for an untouched bucket |
| OrderedBucketer.InMemory.AddItemToDb | lib/em-bucketer/ordered/database/hash.rb:35-41 | appends at the tail |
| OrderedBucketer.InMemory.GetBucketFromDb | lib/em-bucketer/ordered/database/hash.rb:43-48 | yields the items without changing them |
| OrderedBucketer.InMemory.EmptyBucketInDb | lib/em-bucketer/ordered/database/hash.rb:50-56 | empties only the named bucket |
| OrderedBucketer.InMemory.BucketById | lib/em-bucketer/ordered/database/hash.rb:58-60 | yields the bucket's array, storing `[]` in place of a missing entry or `nil` |

## Left out

- The Redis backends and client (`lib/em-bucketer/database/redis.rb`, `lib/em-bucketer/ordered/database/redis.rb`, `lib/em-bucketer/redis.rb`) are network I/O and are not part of this model. A failing backend is represented only by the `fault` parameter.
- EventMachine is not modelled: the reactor, `EM::Completion` callbacks and errbacks, `EM::Timer` and `EM.add_timer`. Completions are synchronous results. Timers carry no duration and fire only through the `Timeout` step.
- The completion callbacks registered by the caller (`&blk`) are not modelled. Only observer calls are recorded, so it is not modelled whether the caller's block runs before or after the full observers.
- The bodies of observer blocks, and exceptions they raise, are not modelled.
- `get_and_remove_iterator` (`lib/em-bucketer/ordered/base.rb:110-124`) is a private helper that nothing calls. It would call the two-argument ordered `add_item` with three arguments. It is not modelled.
- `setup_db` is not defined in the in-memory ordered files. The ordered engine starts with an empty store.
- The ordered `get_bucket` hands out the live array held in `@buckets`, which a caller could then mutate. Buckets are values here, so this aliasing is not modelled.
- OrderedBucketer.PopCountNegative: a negative count raises `ArgumentError` out of `pop_count` itself; the model reports it as a failed result instead.
- `count` is modelled as an integer. Non-integer counts are not modelled.
- The unordered timer block that is still scheduled after `clear_timer` is kept in `scheduled`. Its eventual run is the `Timeout` step; the time at which it runs is not modelled.
- `bucket_max_age` set to `false` is treated like `nil`. Only `nil` is modelled (as `None`).
