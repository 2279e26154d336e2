/** The submission client: one reading is posted to the storage endpoint with
    up to three attempts and a fixed pause between a failed attempt and the
    next. The network is replaced by the sequence of outcomes its successive
    requests would have, and the pause by an event in a log. */
module Client {
  import opened Readings

  /** Attempts per submission, seconds paused between attempts, and seconds a
      request may take before it times out. */
  const MaxRetries := 3
  const RetryDelay := 5
  const RequestTimeout := 10

  /** What one request yields: a response with a status code, a timeout, a
      connection failure, or any other failure. */
  datatype Outcome = Status(code: int) | Timeout | ConnError | Other

  /** One step a submission takes: a request carrying `body`, or a pause. */
  datatype Event = Post(body: Reading, outcome: Outcome) | Sleep(seconds: nat)

  /** Only a response with status 200 or 201 is a success. */
  predicate IsSuccess(o: Outcome)
  {
    o.Status? && (o.code == 200 || o.code == 201)
  }

  /** Some request among the first `budget` succeeds. */
  predicate Delivered(outs: seq<Outcome>, budget: nat)
  {
    exists i :: 0 <= i < budget && i < |outs| && IsSuccess(outs[i])
  }

  /** The number of requests a submission with `budget` attempts makes: up to
      and including the first success, and all of them when none succeeds. */
  function AttemptsUsed(outs: seq<Outcome>, budget: nat): (n: nat)
    requires budget <= |outs|
    ensures n <= budget && (budget > 0 ==> n >= 1)
    ensures forall i :: 0 <= i < n - 1 ==> !IsSuccess(outs[i])
    ensures 0 < n < budget ==> IsSuccess(outs[n - 1])
    decreases budget
  {
    if budget == 0 then 0
    else if IsSuccess(outs[0]) || budget == 1 then 1
    else 1 + AttemptsUsed(outs[1..], budget - 1)
  }

  /** The log of a submission whose requests had the outcomes `attempted`:
      every request posts `body`, and consecutive requests are separated by
      one pause of `RetryDelay` seconds. */
  function Trace(body: Reading, attempted: seq<Outcome>): (log: seq<Event>)
    decreases |attempted|
  {
    if |attempted| <= 1 then
      (if attempted == [] then [] else [Post(body, attempted[0])])
    else
      Trace(body, attempted[..|attempted| - 1]) + [Sleep(RetryDelay), Post(body, attempted[|attempted| - 1])]
  }

  function CountPosts(log: seq<Event>): nat
  {
    if log == [] then 0 else (if log[0].Post? then 1 else 0) + CountPosts(log[1..])
  }

  function CountSleeps(log: seq<Event>): nat
  {
    if log == [] then 0 else (if log[0].Sleep? then 1 else 0) + CountSleeps(log[1..])
  }

  /** Seconds a submission may block, assuming every request ends within its
      timeout: every pause, plus the full timeout of every request. */
  function WorstCaseSeconds(log: seq<Event>): nat
  {
    if log == [] then 0
    else (match log[0] case Post(_, _) => RequestTimeout case Sleep(s) => s) + WorstCaseSeconds(log[1..])
  }

  lemma {:induction false} CountsAppend(a: seq<Event>, b: seq<Event>)
    ensures CountPosts(a + b) == CountPosts(a) + CountPosts(b)
    ensures CountSleeps(a + b) == CountSleeps(a) + CountSleeps(b)
    ensures WorstCaseSeconds(a + b) == WorstCaseSeconds(a) + WorstCaseSeconds(b)
    decreases |a|
  {
    if a != [] {
      assert (a + b)[1..] == a[1..] + b;
      CountsAppend(a[1..], b);
    } else {
      assert a + b == b;
    }
  }

  /** A log of `k` requests holds exactly `k` posts of the same body and `k - 1`
      pauses; assuming each request ends within its timeout, it blocks for at
      most `10 k + 5 (k - 1)` seconds. */
  lemma {:induction false} TraceCounts(body: Reading, attempted: seq<Outcome>)
    requires attempted != []
    ensures CountPosts(Trace(body, attempted)) == |attempted|
    ensures CountSleeps(Trace(body, attempted)) == |attempted| - 1
    ensures WorstCaseSeconds(Trace(body, attempted)) == RequestTimeout * |attempted| + RetryDelay * (|attempted| - 1)
    ensures forall e :: e in Trace(body, attempted) && e.Post? ==> e.body == body
    decreases |attempted|
  {
    var n := |attempted|;
    if n > 1 {
      var front := attempted[..n - 1];
      var tail: seq<Event> := [Sleep(RetryDelay), Post(body, attempted[n - 1])];
      TraceCounts(body, front);
      CountsAppend(Trace(body, front), tail);
      assert tail[1..] == [Post(body, attempted[n - 1])] && tail[1..][1..] == [];
      assert CountSleeps(tail[1..]) == 0 && CountPosts(tail[1..]) == 1;
      assert WorstCaseSeconds(tail[1..]) == RequestTimeout;
      assert CountPosts(tail) == 1 && CountSleeps(tail) == 1;
      assert WorstCaseSeconds(tail) == RetryDelay + RequestTimeout;
      assert Trace(body, attempted) == Trace(body, front) + tail;
    } else {
      assert Trace(body, attempted)[1..] == [];
    }
  }

  /** The submission succeeds exactly when its last request did. */
  lemma DeliveredIffLastSucceeded(outs: seq<Outcome>, budget: nat)
    requires 0 < budget <= |outs|
    ensures Delivered(outs, budget) <==> IsSuccess(outs[AttemptsUsed(outs, budget) - 1])
  {
    var n := AttemptsUsed(outs, budget);
    if IsSuccess(outs[n - 1]) {
      assert 0 <= n - 1 < budget;
    }
  }

  /** A first request that succeeds is the only one. */
  lemma ImmediateSuccess(body: Reading, outs: seq<Outcome>)
    requires MaxRetries <= |outs| && IsSuccess(outs[0])
    ensures Delivered(outs, MaxRetries)
    ensures Trace(body, outs[..AttemptsUsed(outs, MaxRetries)]) == [Post(body, outs[0])]
  {
  }

  /** Three failures of any kind give three requests, two pauses, no success. */
  lemma PersistentFailure(body: Reading, outs: seq<Outcome>)
    requires MaxRetries <= |outs|
    requires !IsSuccess(outs[0]) && !IsSuccess(outs[1]) && !IsSuccess(outs[2])
    ensures !Delivered(outs, MaxRetries) && AttemptsUsed(outs, MaxRetries) == 3
    ensures Trace(body, outs[..AttemptsUsed(outs, MaxRetries)]) ==
      [Post(body, outs[0]), Sleep(RetryDelay), Post(body, outs[1]), Sleep(RetryDelay), Post(body, outs[2])]
  {
    assert outs[..2][..1] == outs[..1];
    assert Trace(body, outs[..2]) == [Post(body, outs[0]), Sleep(RetryDelay), Post(body, outs[1])];
    assert outs[..3][..2] == outs[..2];
  }

  /** Two failures followed by a success: three requests, two pauses, success. */
  lemma SucceedsOnLastAttempt(body: Reading, outs: seq<Outcome>)
    requires MaxRetries <= |outs|
    requires !IsSuccess(outs[0]) && !IsSuccess(outs[1]) && IsSuccess(outs[2])
    ensures Delivered(outs, MaxRetries) && AttemptsUsed(outs, MaxRetries) == 3
    ensures CountPosts(Trace(body, outs[..AttemptsUsed(outs, MaxRetries)])) == 3
    ensures CountSleeps(Trace(body, outs[..AttemptsUsed(outs, MaxRetries)])) == 2
  {
    TraceCounts(body, outs[..3]);
  }

  /** The client's fixed configuration. The request itself goes to the
      module-level endpoint, not to `url`. */
  class SupabaseClient {
    const url: string
    const key: string

    constructor (url: string, key: string)
      ensures this.url == url && this.key == key
    {
      this.url := url;
      this.key := key;
    }

    /** Submits `data`, the i-th request having outcome `outs[i]`. Returns at the
        first success; after any other outcome pauses unless that was the last
        allowed attempt, and reports failure once the attempts are spent. */
    method SendReading(data: Reading, outs: seq<Outcome>) returns (ok: bool, log: seq<Event>)
      requires MaxRetries <= |outs|
      ensures ok <==> Delivered(outs, MaxRetries)
      ensures log == Trace(data, outs[..AttemptsUsed(outs, MaxRetries)])
    {
      log := [];
      var attempt := 1;
      while attempt <= MaxRetries
        invariant 1 <= attempt <= MaxRetries + 1
        invariant forall i :: 0 <= i < attempt - 1 ==> !IsSuccess(outs[i])
        invariant attempt == 1 ==> log == []
        invariant 1 < attempt <= MaxRetries ==> log == Trace(data, outs[..attempt - 1]) + [Sleep(RetryDelay)]
        invariant attempt == MaxRetries + 1 ==> log == Trace(data, outs[..MaxRetries])
      {
        var outcome := outs[attempt - 1];
        log := log + [Post(data, outcome)];
        assert outs[..attempt][..attempt - 1] == outs[..attempt - 1];
        if IsSuccess(outcome) {
          return true, log;
        }
        if attempt < MaxRetries {
          log := log + [Sleep(RetryDelay)];
        }
        attempt := attempt + 1;
      }
      return false, log;
    }
  }
}
