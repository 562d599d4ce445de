/** A limiter that keeps the times of the last `limit` accepted messages, shown to be a sliding-window counter. */
module RateLimiter {

  predicate Sorted(times: seq<int>)
  {
    forall i, j :: 0 <= i <= j < |times| ==> times[i] <= times[j]
  }

  /** How many of the first `n` times lie within the interval that ends now. */
  function Recent(times: seq<int>, n: nat, now: int, interval: int): nat
    requires n <= |times|
  {
    if n == 0 then 0
    else Recent(times, n - 1, now, interval) + if now - times[n - 1] < interval then 1 else 0
  }

  /** Any `limit` + 1 consecutive times span at least the interval. */
  predicate Spaced(times: seq<int>, limit: nat, interval: int)
  {
    forall i, j :: 0 <= i && j == i + limit < |times| ==> times[j] - times[i] >= interval
  }

  predicate IsSuffix(tail: seq<int>, times: seq<int>, limit: nat)
  {
    && |tail| == (if |times| < limit then |times| else limit)
    && forall i :: 0 <= i < |tail| ==> tail[i] == times[|times| - |tail| + i]
  }

  lemma {:induction false} ManyRecent(times: seq<int>, n: nat, now: int, interval: int, k: nat)
    requires Sorted(times) && k <= n <= |times| && k < |times| && now - times[k] < interval
    ensures Recent(times, n, now, interval) >= n - k
  {
    if n > k {
      ManyRecent(times, n - 1, now, interval, k);
    }
  }

  lemma {:induction false} FewRecent(times: seq<int>, n: nat, now: int, interval: int, k: nat)
    requires Sorted(times) && n <= |times| && k < |times| && now - times[k] >= interval
    ensures Recent(times, n, now, interval) <= if n <= k + 1 then 0 else n - k - 1
  {
    if n > 0 {
      FewRecent(times, n - 1, now, interval, k);
    }
  }

  lemma {:induction false} AtMostAll(times: seq<int>, n: nat, now: int, interval: int)
    requires n <= |times|
    ensures Recent(times, n, now, interval) <= n
  {
    if n > 0 {
      AtMostAll(times, n - 1, now, interval);
    }
  }

  /** The window is full exactly when the oldest of the last `limit` times is in it. */
  lemma FullExactly(times: seq<int>, limit: nat, now: int, interval: int)
    requires Sorted(times) && limit >= 1
    ensures Recent(times, |times|, now, interval) >= limit <==>
      |times| >= limit && now - times[|times| - limit] < interval
  {
    if |times| < limit {
      AtMostAll(times, |times|, now, interval);
    } else if now - times[|times| - limit] < interval {
      ManyRecent(times, |times|, now, interval, |times| - limit);
    } else {
      FewRecent(times, |times|, now, interval, |times| - limit);
    }
  }

  lemma Accepting(times: seq<int>, limit: nat, now: int, interval: int)
    requires Sorted(times) && Spaced(times, limit, interval) && limit >= 1
    requires forall i :: 0 <= i < |times| ==> times[i] <= now
    requires |times| >= limit ==> now - times[|times| - limit] >= interval
    ensures Sorted(times + [now]) && Spaced(times + [now], limit, interval)
  {
  }

  /** What the wrapped connection hands over: a message with the time it was read, or an error. */
  datatype Incoming = Message(data: seq<bv8>, at: int) | Failure(error: string)

  /** Waiting stands for a read that has not come back yet. */
  datatype Next = Delivered(data: seq<bv8>) | Failed(error: string) | Waiting

  /** Reading times do not go back. */
  predicate InOrder(incoming: seq<Incoming>, from: seq<int>)
  {
    && (forall i, j :: 0 <= i < |from| && 0 <= j < |incoming| && incoming[j].Message? ==> from[i] <= incoming[j].at)
    && (forall i, j :: 0 <= i <= j < |incoming| && incoming[i].Message? && incoming[j].Message? ==>
      incoming[i].at <= incoming[j].at)
  }

  class RateLimiter {
    const limit: int
    const interval: int
    const forceDisable: bool
    var times: seq<int>
    /** Every accepted time so far. */
    ghost var accepted: seq<int>

    ghost predicate Valid()
      reads this
    {
      if limit < 1 then times == accepted == []
      else Sorted(accepted) && Spaced(accepted, limit, interval) && IsSuffix(times, accepted, limit)
    }

    constructor (limit: int, interval: int, forceDisable: bool)
      ensures Valid() && accepted == []
      ensures this.limit == limit && this.interval == interval && this.forceDisable == forceDisable
    {
      this.limit, this.interval, this.forceDisable := limit, interval, forceDisable;
      times, accepted := [], [];
    }

    /** With a limit below one the source reads the front of an empty list. */
    method ShouldRateLimit(now: int) returns (limited: bool)
      requires limit >= 1 && Valid() && forall i :: 0 <= i < |accepted| ==> accepted[i] <= now
      modifies this
      ensures Valid()
      ensures limited <==> Recent(old(accepted), |old(accepted)|, now, interval) >= limit
      ensures limited <==> |old(accepted)| >= limit && now < old(accepted)[|old(accepted)| - limit] + interval
      ensures accepted == if limited then old(accepted) else old(accepted) + [now]
    {
      FullExactly(accepted, limit, now, interval);
      if |times| < limit {
        Accepting(accepted, limit, now, interval);
        times := times + [now];
        accepted := accepted + [now];
        return false;
      }
      var front := times[0];
      if now - front < interval {
        return true;
      }
      Accepting(accepted, limit, now, interval);
      times := times[1..] + [now];
      accepted := accepted + [now];
      return false;
    }

    /** Reads until a message is accepted or the connection fails; messages over the limit are dropped. */
    method GetNextMessage(incoming: seq<Incoming>) returns (next: Next, read: nat)
      requires (limit >= 1 || forceDisable) && Valid() && InOrder(incoming, accepted)
      modifies this
      ensures Valid() && read <= |incoming| && (next.Waiting? ==> read == |incoming|)
      ensures !next.Delivered? ==> accepted == old(accepted)
      ensures next.Failed? ==> read >= 1 && incoming[read - 1] == Failure(next.error)
      ensures next.Delivered? ==> read >= 1 && incoming[read - 1].Message? && next.data == incoming[read - 1].data
      ensures next.Delivered? && !forceDisable ==>
        && Recent(old(accepted), |old(accepted)|, incoming[read - 1].at, interval) < limit
        && accepted == old(accepted) + [incoming[read - 1].at]
      ensures !forceDisable ==> forall j :: 0 <= j < read - (if next.Waiting? then 0 else 1) ==>
        incoming[j].Message? && Recent(old(accepted), |old(accepted)|, incoming[j].at, interval) >= limit
      ensures forceDisable ==> accepted == old(accepted) && (incoming != [] ==> read == 1 && !next.Waiting?)
    {
      read := 0;
      if forceDisable {
        if incoming == [] {
          return Waiting, 0;
        }
        match incoming[0]
        case Message(data, _) => return Delivered(data), 1;
        case Failure(error) => return Failed(error), 1;
      }
      while read < |incoming|
        invariant read <= |incoming| && Valid() && accepted == old(accepted)
        invariant forall j :: 0 <= j < read ==>
          incoming[j].Message? && Recent(accepted, |accepted|, incoming[j].at, interval) >= limit
        decreases |incoming| - read
      {
        read := read + 1;
        match incoming[read - 1]
        case Failure(error) => return Failed(error), read;
        case Message(data, at) =>
          var limited := ShouldRateLimit(at);
          if !limited {
            return Delivered(data), read;
          }
      }
      return Waiting, read;
    }
  }
}
