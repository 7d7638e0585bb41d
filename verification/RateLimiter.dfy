/** The LNURL service's sliding-window limiter, one bucket of accepted request times per key. */
module RateLimiter {

  datatype Request = Request(key: string, now: real)

  // ---- What the limiter should do --------------------------------------------------------

  /** The times not before the cutoff. */
  function Recent(times: seq<real>, cutoff: real): seq<real> {
    if times == [] then []
    else if times[0] >= cutoff then [times[0]] + Recent(times[1..], cutoff)
    else Recent(times[1..], cutoff)
  }

  predicate Sorted(times: seq<real>) {
    forall i, j :: 0 <= i < j < |times| ==> times[i] <= times[j]
  }

  /** How much of which window may be accepted. */
  datatype Limit = Limit(window: int, max: int)
  {
    /** When the closed window that ends now began. */
    function Cutoff(now: real): real {
      now - window as real
    }

    /** The times at which requests for the key were accepted, each accepted when fewer than max
        accepted ones lie in the closed window that ends with it. */
    function Accepted(log: seq<Request>, key: string): seq<real> {
      if log == [] then []
      else
        var before := Accepted(log[..|log| - 1], key);
        var last := log[|log| - 1];
        if last.key == key && Allows(before, last.now) then before + [last.now] else before
    }

    predicate Allows(accepted: seq<real>, now: real) {
      |Recent(accepted, Cutoff(now))| < max
    }
  }

  /** The clock never runs backwards. */
  predicate Monotone(log: seq<Request>) {
    forall i, j :: 0 <= i < j < |log| ==> log[i].now <= log[j].now
  }

  // ---- Facts about recent times ------------------------------------------------------------

  lemma {:induction false} RecentAll(times: seq<real>, cutoff: real)
    requires Sorted(times) && (times == [] || times[0] >= cutoff)
    ensures Recent(times, cutoff) == times
  {
    if times != [] {
      RecentAll(times[1..], cutoff);
    }
  }

  lemma {:induction false} RecentTwice(times: seq<real>, earlier: real, later: real)
    requires earlier <= later
    ensures Recent(Recent(times, earlier), later) == Recent(times, later)
  {
    if times != [] {
      RecentTwice(times[1..], earlier, later);
      var rest := Recent(times[1..], earlier);
      assert ([times[0]] + rest)[1..] == rest;
    }
  }

  lemma {:induction false} RecentLast(times: seq<real>, now: real, cutoff: real)
    ensures Recent(times + [now], cutoff) == Recent(times, cutoff) + if now >= cutoff then [now] else []
  {
    if times == [] {
      assert [] + [now] == [now] && [now][1..] == [];
    } else {
      assert (times + [now])[0] == times[0] && (times + [now])[1..] == times[1..] + [now];
      RecentLast(times[1..], now, cutoff);
    }
  }

  /** In sorted times the recent ones are a suffix. */
  lemma {:induction false} RecentSuffix(times: seq<real>, cutoff: real) returns (k: nat)
    requires Sorted(times)
    ensures k <= |times| && Recent(times, cutoff) == times[k..]
    ensures forall i :: 0 <= i < k ==> times[i] < cutoff
    ensures forall i :: k <= i < |times| ==> times[i] >= cutoff
  {
    if times == [] {
      k := 0;
    } else if times[0] >= cutoff {
      RecentAll(times, cutoff);
      assert forall i :: 0 < i < |times| ==> times[0] <= times[i];
      k := 0;
    } else {
      SortedTail(times);
      hide Sorted;
      var tail := times[1..];
      var n := RecentSuffix(tail, cutoff);
      k := n + 1;
      assert Recent(times, cutoff) == Recent(tail, cutoff);
      hide Recent;
      assert times[k..] == tail[n..];
      assert forall i :: 0 < i < |times| ==> times[i] == tail[i - 1];
    }
  }

  lemma SortedTail(times: seq<real>)
    requires Sorted(times) && times != []
    ensures Sorted(times[1..])
  {
  }

  // ---- Whole runs ----------------------------------------------------------------------------

  /** Accepted times are times of requests, in order. */
  lemma {:induction false} AcceptedSorted(limit: Limit, log: seq<Request>, key: string)
    requires Monotone(log)
    ensures Sorted(limit.Accepted(log, key))
    ensures log != [] ==> forall i :: 0 <= i < |limit.Accepted(log, key)| ==>
      limit.Accepted(log, key)[i] <= log[|log| - 1].now
  {
    if log != [] {
      var init := log[..|log| - 1];
      AcceptedSorted(limit, init, key);
      if init != [] {
        assert init[|init| - 1].now <= log[|log| - 1].now;
      }
    }
  }

  /** max accepted requests and one more always span more than the window. */
  lemma {:induction false} Spread(limit: Limit, log: seq<Request>, key: string, i: nat)
    requires Monotone(log) && limit.max >= 1
    requires i + limit.max < |limit.Accepted(log, key)|
    ensures limit.Accepted(log, key)[i + limit.max] - limit.Accepted(log, key)[i] > limit.window as real
  {
    var init := log[..|log| - 1];
    var before := limit.Accepted(init, key);
    if i + limit.max < |before| {
      Spread(limit, init, key, i);
    } else {
      var now := log[|log| - 1].now;
      AcceptedSorted(limit, init, key);
      var k := RecentSuffix(before, limit.Cutoff(now));
      assert |before[k..]| < limit.max;
      assert before[i] < limit.Cutoff(now);
    }
  }

  lemma {:induction false} NoneAccepted(limit: Limit, log: seq<Request>, key: string)
    requires limit.max <= 0
    ensures limit.Accepted(log, key) == []
  {
    if log != [] {
      NoneAccepted(limit, log[..|log| - 1], key);
    }
  }

  /** Over any run of the clock, no closed window of the limit's length holds more than max accepted
      requests of a key: times lo to hi of the accepted list that lie in one window are at most max. */
  lemma WindowBound(limit: Limit, log: seq<Request>, key: string, start: real, lo: nat, hi: nat)
    requires Monotone(log) && limit.max >= 0
    requires lo <= hi <= |limit.Accepted(log, key)|
    requires forall i :: lo <= i < hi ==> start <= limit.Accepted(log, key)[i] <= start + limit.window as real
    ensures hi - lo <= limit.max
  {
    if limit.max == 0 {
      NoneAccepted(limit, log, key);
    } else if hi - lo > limit.max {
      Spread(limit, log, key, lo);
    }
  }

  /** Nothing is accepted at first; a request is accepted exactly when fewer than max of the accepted times of its
      key, those from k on, are at most window seconds old; requests for other keys play no part. */
  lemma Decision(limit: Limit, log: seq<Request>, key: string, now: real) returns (k: nat)
    requires Monotone(log + [Request(key, now)])
    ensures var accepted := limit.Accepted(log, key);
      && (log == [] ==> accepted == [])
      && k <= |accepted|
      && (forall i :: 0 <= i < k ==> now - accepted[i] > limit.window as real)
      && (forall i :: k <= i < |accepted| ==> 0.0 <= now - accepted[i] <= limit.window as real)
      && limit.Accepted(log + [Request(key, now)], key)
         == (if |accepted| - k < limit.max then accepted + [now] else accepted)
    ensures forall other :: other != key ==> limit.Accepted(log + [Request(key, now)], other) == limit.Accepted(log, other)
  {
    assert (log + [Request(key, now)])[..|log|] == log;
    AcceptedNext(limit, log, Request(key, now));
    PrefixMonotone(log, Request(key, now));
    AcceptedSorted(limit, log, key);
    hide Sorted, Recent, Monotone, Limit.Accepted;
    k := RecentSuffix(limit.Accepted(log, key), limit.Cutoff(now));
  }

  lemma AcceptedNext(limit: Limit, log: seq<Request>, last: Request)
    ensures var before := limit.Accepted(log, last.key);
      limit.Accepted(log + [last], last.key) == if limit.Allows(before, last.now) then before + [last.now] else before
  {
    assert (log + [last])[..|log|] == log;
  }

  lemma PrefixMonotone(log: seq<Request>, last: Request)
    requires Monotone(log + [last])
    ensures Monotone(log)
    ensures log != [] ==> log[|log| - 1].now <= last.now
  {
    var log' := log + [last];
    forall i, j | 0 <= i < j < |log| ensures log[i].now <= log[j].now {
      assert log'[i].now <= log'[j].now;
    }
    if log != [] {
      assert log'[|log| - 1].now <= log'[|log|].now;
    }
  }

  /** The bucket agrees with the accepted times from the last request's window on. */
  ghost predicate Faithful(limit: Limit, log: seq<Request>, key: string, bucket: seq<real>) {
    forall cutoff :: (log == [] || cutoff >= limit.Cutoff(log[|log| - 1].now)) ==>
      Recent(bucket, cutoff) == Recent(limit.Accepted(log, key), cutoff)
  }

  lemma FaithfulOther(limit: Limit, log: seq<Request>, last: Request, key: string, bucket: seq<real>)
    requires Monotone(log + [last]) && key != last.key
    requires Faithful(limit, log, key, bucket)
    ensures Faithful(limit, log + [last], key, bucket)
  {
    PrefixMonotone(log, last);
    assert (log + [last])[..|log|] == log;
  }

  /** Pruning to the window and appending an accepted time keeps the bucket faithful. */
  lemma FaithfulSame(limit: Limit, log: seq<Request>, last: Request, pruned: seq<real>)
    requires Monotone(log + [last])
    requires pruned == Recent(limit.Accepted(log, last.key), limit.Cutoff(last.now))
    ensures var bucket := if |pruned| < limit.max then pruned + [last.now] else pruned;
      && Faithful(limit, log + [last], last.key, bucket)
      && Sorted(bucket)
      && (limit.window >= 0 ==> bucket == Recent(limit.Accepted(log + [last], last.key), limit.Cutoff(last.now)))
  {
    var accepted := limit.Accepted(log, last.key);
    PrefixMonotone(log, last);
    AcceptedSorted(limit, log, last.key);
    var k := RecentSuffix(accepted, limit.Cutoff(last.now));
    assert (log + [last])[..|log|] == log;
    var admitted := |pruned| < limit.max;
    var bucket := if admitted then pruned + [last.now] else pruned;
    assert limit.Accepted(log + [last], last.key) == if admitted then accepted + [last.now] else accepted;
    forall cutoff | cutoff >= limit.Cutoff(last.now)
      ensures Recent(bucket, cutoff) == Recent(limit.Accepted(log + [last], last.key), cutoff)
    {
      RecentTwice(accepted, limit.Cutoff(last.now), cutoff);
      RecentLast(accepted, last.now, cutoff);
      RecentLast(pruned, last.now, cutoff);
    }
    RecentLast(accepted, last.now, limit.Cutoff(last.now));
  }

  // ---- The limiter -----------------------------------------------------------------------------

  class Limiter {
    const limit: Limit
    var buckets: map<string, seq<real>>
    ghost var log: seq<Request>

    /** A bucket that was never made stands for an empty one. */
    function Bucket(key: string): seq<real>
      reads this
    {
      if key in buckets then buckets[key] else []
    }

    ghost predicate Valid()
      reads this
    {
      && Monotone(log)
      && forall key :: Sorted(Bucket(key)) && Faithful(limit, log, key, Bucket(key))
    }

    constructor (limit: Limit)
      ensures Valid() && this.limit == limit && log == []
    {
      this.limit, buckets, log := limit, map[], [];
    }

    /** Prunes the key's bucket, then admits the request if there is room. */
    method Check(key: string, now: real) returns (ok: bool)
      requires Valid()
      requires Monotone(log + [Request(key, now)])
      modifies this
      ensures Valid() && log == old(log) + [Request(key, now)]
      ensures ok == limit.Allows(limit.Accepted(old(log), key), now)
      ensures limit.window >= 0 ==> Bucket(key) == Recent(limit.Accepted(log, key), limit.Cutoff(now))
      ensures forall k :: k != key ==> Bucket(k) == old(Bucket(k))
    {
      hide Sorted, Faithful;
      var bucket := Bucket(key);
      var cutoff := limit.Cutoff(now);
      FaithfulNow(limit, log, Request(key, now), bucket);
      forall k | k != key ensures Faithful(limit, log + [Request(key, now)], k, Bucket(k)) {
        FaithfulOther(limit, log, Request(key, now), k, Bucket(k));
      }
      while bucket != [] && bucket[0] < cutoff
        invariant log == old(log) && buckets == old(buckets)
        invariant Sorted(bucket)
        invariant Recent(bucket, cutoff) == Recent(limit.Accepted(log, key), cutoff)
      {
        SortedTail(bucket);
        bucket := bucket[1..];
      }
      RecentAll(bucket, cutoff);
      FaithfulSame(limit, log, Request(key, now), bucket);
      ok := |bucket| < limit.max;
      if ok {
        bucket := bucket + [now];
      }
      buckets := buckets[key := bucket];
      log := log + [Request(key, now)];
      forall k ensures Sorted(Bucket(k)) && Faithful(limit, log, k, Bucket(k)) {
        if k != key {
          assert Bucket(k) == old(Bucket(k));
        }
      }
    }
  }

  lemma FaithfulNow(limit: Limit, log: seq<Request>, last: Request, bucket: seq<real>)
    requires Monotone(log + [last]) && Faithful(limit, log, last.key, bucket)
    ensures Recent(bucket, limit.Cutoff(last.now)) == Recent(limit.Accepted(log, last.key), limit.Cutoff(last.now))
  {
    PrefixMonotone(log, last);
  }
}
