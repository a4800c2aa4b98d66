/** Vocabulary shared by both bucket families: identifiers, the opaque item
    payload, the synchronous stand-in for `EM::Completion`, and the log that
    records every observer call. */
module Common {

  /** A bucket is named by an opaque string. */
  type BucketId = string

  /** Identity of an item inside one unordered bucket. */
  type ItemId = string

  /** The payload a caller stores; the engine never looks inside it. */
  type Item

  /** Stands for one block registered with `on_bucket_full` or
      `on_bucket_timeout`; the block's body is not modelled, only its calls. */
  type Observer = string

  /** One invocation `callback.call bucket_id`. */
  datatype Call = Call(observer: Observer, bucket: BucketId)

  datatype Option<+T> = None | Some(value: T)

  /** A completion that succeeds without a value (`c.succeed`) or fails
      with an error (`c.fail e`). */
  datatype Outcome = Pass | Fail(error: string)

  /** A completion that succeeds with a value or fails with an error. */
  datatype Result<+T> = Ok(value: T) | Err(error: string)

  /** Splitting off the head of a non-empty suffix. */
  lemma AppendHead<T>(b: seq<T>, s: seq<T>)
    requires s != []
    ensures b + [s[0]] + s[1..] == b + s
  {
    assert s == [s[0]] + s[1..];
  }

  /** The calls made by `observers.each { |cb| cb.call bucket_id }`:
      every observer once, in registration order, with the same bucket. */
  function Broadcast(observers: seq<Observer>, id: BucketId): (calls: seq<Call>)
    ensures |calls| == |observers|
  {
    if observers == [] then []
    else Broadcast(observers[..|observers| - 1], id) + [Call(observers[|observers| - 1], id)]
  }

  /** The `k`-th call goes to the `k`-th observer registered, with the bucket. */
  lemma {:induction false} BroadcastAt(observers: seq<Observer>, id: BucketId)
    ensures forall k :: 0 <= k < |observers| ==> Broadcast(observers, id)[k] == Call(observers[k], id)
  {
    if observers != [] {
      var init := observers[..|observers| - 1];
      BroadcastAt(init, id);
      forall k | 0 <= k < |observers| ensures Broadcast(observers, id)[k] == Call(observers[k], id) {
        if k < |init| {
          assert Broadcast(observers, id)[k] == Broadcast(init, id)[k];
        }
      }
    }
  }

  /** Registering more observers keeps the calls to the earlier ones first
      and unchanged. */
  lemma {:induction false} BroadcastAppend(earlier: seq<Observer>, later: seq<Observer>, id: BucketId)
    ensures Broadcast(earlier + later, id) == Broadcast(earlier, id) + Broadcast(later, id)
  {
    var lhs, rhs := Broadcast(earlier + later, id), Broadcast(earlier, id) + Broadcast(later, id);
    BroadcastAt(earlier + later, id);
    BroadcastAt(earlier, id);
    BroadcastAt(later, id);
    assert |lhs| == |rhs|;
    forall k | 0 <= k < |lhs| ensures lhs[k] == rhs[k] {
      if k < |earlier| {
        assert rhs[k] == Broadcast(earlier, id)[k];
      } else {
        assert rhs[k] == Broadcast(later, id)[k - |earlier|];
      }
    }
  }

  /** The `each` loop that invokes every registered observer with `id`,
      recording each invocation at the end of `log`. */
  method NotifyAll(observers: seq<Observer>, id: BucketId, log: seq<Call>) returns (log': seq<Call>)
    ensures log' == log + Broadcast(observers, id)
  {
    log' := log;
    for i := 0 to |observers|
      invariant log' == log + Broadcast(observers[..i], id)
    {
      assert observers[..i + 1][..i] == observers[..i];
      log' := log' + [Call(observers[i], id)];
    }
    assert observers[..|observers|] == observers;
  }

  /** The full-observer calls made by `n` adds that each grow a bucket by
      one, starting from size `size`: a round on every add whose resulting
      size is at least `threshold`, none before. */
  function FullRounds(observers: seq<Observer>, id: BucketId, size: nat, n: nat, threshold: int): seq<Call>
    decreases n
  {
    if n == 0 then []
    else (if size + 1 >= threshold then Broadcast(observers, id) else [])
         + FullRounds(observers, id, size + 1, n - 1, threshold)
  }

  /** No round before the threshold is reached. */
  lemma {:induction false} FullRoundsBelow(observers: seq<Observer>, id: BucketId, size: nat, n: nat, threshold: int)
    requires size + n < threshold
    ensures FullRounds(observers, id, size, n, threshold) == []
    decreases n
  {
    if n > 0 {
      FullRoundsBelow(observers, id, size + 1, n - 1, threshold);
    }
  }

  /** Adds that end exactly at the threshold make one round, the last. */
  lemma {:induction false} FullRoundsReach(observers: seq<Observer>, id: BucketId, size: nat, n: nat, threshold: int)
    requires n > 0 && size + n == threshold
    ensures FullRounds(observers, id, size, n, threshold) == Broadcast(observers, id)
    decreases n
  {
    if n > 1 {
      FullRoundsReach(observers, id, size + 1, n - 1, threshold);
    }
  }

  /** An add that makes the first round of `n` is followed by the other
      `n - 1`. */
  lemma LogStep(log: seq<Call>, log': seq<Call>, observers: seq<Observer>, id: BucketId, size: nat, n: nat, threshold: int)
    requires n > 0
    requires log' == log + (if size + 1 >= threshold then Broadcast(observers, id) else [])
    ensures log' + FullRounds(observers, id, size + 1, n - 1, threshold) == log + FullRounds(observers, id, size, n, threshold)
  {
  }
}
