/** The fixed-window rate limiter.  Times are milliseconds; a key carries the limiter's name. */
module RateLimit {
  import opened Types

  datatype Bucket = Bucket(count: nat, resetAt: int)
  datatype Request = Request(key: string, now: int, window: int, max: nat)

  /** What the caller is told: the remaining requests, and how many seconds to wait after a refusal. */
  datatype Answer = Pass(remaining: nat) | TooMany(retryAfter: nat)

  type Buckets = map<string, Bucket>

  const CLEANUP_SIZE: nat := 10_000

  function Unexpired(buckets: Buckets, now: int): Buckets {
    map k | k in buckets && buckets[k].resetAt > now :: buckets[k]
  }

  /** cleanupExpiredBuckets */
  function Cleaned(buckets: Buckets, now: int): Buckets {
    if |buckets| < CLEANUP_SIZE then buckets else Unexpired(buckets, now)
  }

  /** The bucket of a key that is still open. */
  function Current(buckets: Buckets, key: string, now: int): Option<Bucket> {
    if key in buckets && buckets[key].resetAt > now then Some(buckets[key]) else None
  }

  function Charged(buckets: Buckets, r: Request): Bucket {
    match Current(buckets, r.key, r.now)
    case Some(bucket) => Bucket(bucket.count + 1, bucket.resetAt)
    case None => Bucket(1, r.now + r.window)
  }

  function Ceil(x: int, k: int): int
    requires k > 0
  {
    -((-x) / k)
  }

  function AnswerTo(bucket: Bucket, r: Request): Answer {
    if bucket.count > r.max then
      var seconds := Ceil(bucket.resetAt - r.now, 1000);
      TooMany(if seconds < 1 then 1 else seconds)
    else Pass(r.max - bucket.count)
  }

  /** One request: with clean-up, or without it. */
  function Serve(buckets: Buckets, r: Request): Buckets { Cleaned(buckets, r.now)[r.key := Charged(buckets, r)] }
  function ServeForever(buckets: Buckets, r: Request): Buckets { buckets[r.key := Charged(buckets, r)] }

  /** When buckets go, in the columns: below ten thousand none does, from then on exactly those whose window is over. */
  lemma CleanedExactly(buckets: Buckets, now: int, key: string)
    ensures key in Cleaned(buckets, now) <==> key in buckets && (|buckets| < 10_000 || buckets[key].resetAt > now)
    ensures key in Cleaned(buckets, now) ==> Cleaned(buckets, now)[key] == buckets[key]
  {
  }

  class Limiter {
    var buckets: Buckets

    constructor ()
      ensures buckets == map[]
    {
      buckets := map[];
    }

    method Cleanup(now: int)
      modifies this
      ensures buckets == Cleaned(old(buckets), now)
    {
      if |buckets| < CLEANUP_SIZE { return; }
      var entries := buckets.Keys;
      while entries != {}
        invariant entries <= buckets.Keys <= old(buckets).Keys
        invariant forall k :: k in buckets ==> buckets[k] == old(buckets)[k]
        invariant forall k :: k in old(buckets) && old(buckets)[k].resetAt > now ==> k in buckets
        invariant forall k :: k in buckets && k !in entries ==> buckets[k].resetAt > now
        decreases entries
      {
        var key :| key in entries;
        entries := entries - {key};
        if buckets[key].resetAt <= now {
          buckets := buckets - {key};
        }
      }
    }

    /** rateLimit(options)(req) */
    method Allow(r: Request) returns (answer: Answer)
      modifies this
      ensures buckets == Serve(old(buckets), r)
      ensures answer == AnswerTo(Charged(old(buckets), r), r)
    {
      Cleanup(r.now);
      var bucket := Bucket(0, r.now + r.window);
      if r.key in buckets && buckets[r.key].resetAt > r.now {
        bucket := buckets[r.key];
      }
      bucket := bucket.(count := bucket.count + 1);
      buckets := buckets[r.key := bucket];
      var remaining := if r.max > bucket.count then r.max - bucket.count else 0;
      if bucket.count > r.max {
        var seconds := Ceil(bucket.resetAt - r.now, 1000);
        return TooMany(if seconds < 1 then 1 else seconds);
      }
      return Pass(remaining);
    }
  }

  // ---- clean-up does not matter -------------------------------------------------------------

  predicate Ordered(requests: seq<Request>, since: int) {
    requests == [] || (since <= requests[0].now && Ordered(requests[1..], requests[0].now))
  }

  function Answers(buckets: Buckets, requests: seq<Request>): seq<Answer>
    decreases requests
  {
    if requests == [] then []
    else [AnswerTo(Charged(buckets, requests[0]), requests[0])] + Answers(Serve(buckets, requests[0]), requests[1..])
  }

  function AnswersForever(buckets: Buckets, requests: seq<Request>): seq<Answer>
    decreases requests
  {
    if requests == [] then []
    else [AnswerTo(Charged(buckets, requests[0]), requests[0])] + AnswersForever(ServeForever(buckets, requests[0]), requests[1..])
  }

  /** Two tables agree on the buckets that are open at `now` or could be later. */
  ghost predicate SameOpen(a: Buckets, b: Buckets, now: int) {
    forall key, t :: now <= t ==> Current(a, key, t) == Current(b, key, t)
  }

  lemma CleanedIsSameOpen(buckets: Buckets, now: int)
    ensures SameOpen(Cleaned(buckets, now), buckets, now)
  {
  }

  lemma ServeSameOpen(a: Buckets, b: Buckets, r: Request, since: int)
    requires SameOpen(a, b, since) && since <= r.now
    ensures Charged(a, r) == Charged(b, r) && SameOpen(Serve(a, r), ServeForever(b, r), r.now)
  {
    CleanedIsSameOpen(a, r.now);
    assert Current(a, r.key, r.now) == Current(b, r.key, r.now);
    var charged := Charged(a, r);
    forall key, t | r.now <= t ensures Current(Serve(a, r), key, t) == Current(ServeForever(b, r), key, t) {
      if key != r.key {
        assert Current(Cleaned(a, r.now), key, t) == Current(a, key, t) == Current(b, key, t);
      }
    }
  }

  /** The limiter with clean-up gives the same answers as one that never cleans up, on every sequence of requests whose
      clock does not go back. */
  lemma {:induction false} CleanupChangesNoAnswer(a: Buckets, b: Buckets, requests: seq<Request>, since: int)
    requires SameOpen(a, b, since) && Ordered(requests, since)
    ensures Answers(a, requests) == AnswersForever(b, requests)
    decreases requests
  {
    hide SameOpen, Serve, ServeForever, Charged, AnswerTo;
    if requests != [] {
      ServeSameOpen(a, b, requests[0], since);
      CleanupChangesNoAnswer(Serve(a, requests[0]), ServeForever(b, requests[0]), requests[1..], requests[0].now);
    }
  }

  // ---- the bounds ---------------------------------------------------------------------------

  /** How many requests of a key are answered with a pass. */
  function Passed(requests: seq<Request>, answers: seq<Answer>, key: string): nat
    requires |answers| == |requests|
    decreases requests
  {
    if requests == [] then 0
    else (if requests[0].key == key && answers[0].Pass? then 1 else 0) + Passed(requests[1..], answers[1..], key)
  }

  lemma {:induction false} AnswersLength(buckets: Buckets, requests: seq<Request>)
    ensures |Answers(buckets, requests)| == |requests|
    decreases requests
  {
    hide AnswerTo, Charged, Serve;
    if requests != [] {
      AnswersLength(Serve(buckets, requests[0]), requests[1..]);
    }
  }

  /** How many requests of a key the limiter lets pass. */
  function LetThrough(buckets: Buckets, requests: seq<Request>, key: string): nat {
    AnswersLength(buckets, requests);
    Passed(requests, Answers(buckets, requests), key)
  }

  lemma LetThroughFirst(buckets: Buckets, requests: seq<Request>, key: string)
    ensures
      if requests == [] then LetThrough(buckets, requests, key) == 0
      else
        var r := requests[0];
        LetThrough(buckets, requests, key)
        == (if r.key == key && Charged(buckets, r).count <= r.max then 1 else 0) + LetThrough(Serve(buckets, r), requests[1..], key)
  {
    hide Serve, Charged;
    if requests != [] {
      AnswersLength(Serve(buckets, requests[0]), requests[1..]);
      assert Answers(buckets, requests)[1..] == Answers(Serve(buckets, requests[0]), requests[1..]);
    }
  }

  /** The requests come in order from `since` to `until`, and those of the key carry its options. */
  ghost predicate Stream(requests: seq<Request>, key: string, window: int, max: nat, since: int, until: int) {
    && Ordered(requests, since)
    && (forall i :: 0 <= i < |requests| ==> requests[i].now <= until)
    && (forall i :: 0 <= i < |requests| && requests[i].key == key ==> requests[i].window == window && requests[i].max == max)
  }

  lemma StreamTail(requests: seq<Request>, key: string, window: int, max: nat, since: int, until: int)
    requires requests != [] && Stream(requests, key, window, max, since, until)
    ensures since <= requests[0].now <= until && Stream(requests[1..], key, window, max, requests[0].now, until)
    ensures requests[0].key == key ==> requests[0].window == window && requests[0].max == max
  {
  }

  /** Serving a request leaves the open bucket of any other key. */
  lemma ServeOther(buckets: Buckets, r: Request, key: string, t: int)
    requires r.key != key && r.now <= t
    ensures Current(Serve(buckets, r), key, t) == Current(buckets, key, t)
  {
  }

  /** Per bucket at most `max` requests of the key pass: while it is open, the rest of its maximum. */
  lemma {:induction false} OneBucketBound(buckets: Buckets, requests: seq<Request>, key: string, window: int, max: nat, since: int, until: int)
    requires Stream(requests, key, window, max, since, until)
    requires Current(buckets, key, until).Some?
    ensures LetThrough(buckets, requests, key) + buckets[key].count <= if buckets[key].count < max then max else buckets[key].count
    decreases requests
  {
    LetThroughFirst(buckets, requests, key);
    hide Stream, Serve, LetThrough;
    if requests != [] {
      var r := requests[0];
      StreamTail(requests, key, window, max, since, until);
      ServeCurrent(buckets, r, key, until);
      OneBucketBound(Serve(buckets, r), requests[1..], key, window, max, r.now, until);
    }
  }

  /** What a request does to an open bucket. */
  lemma ServeCurrent(buckets: Buckets, r: Request, key: string, until: int)
    requires Current(buckets, key, until).Some? && r.now <= until
    ensures
      var after := Serve(buckets, r);
      && Current(after, key, until).Some?
      && after[key] == if r.key == key then Bucket(buckets[key].count + 1, buckets[key].resetAt) else buckets[key]
  {
    if r.key != key {
      ServeOther(buckets, r, key, until);
    }
  }

  lemma StreamFrom(requests: seq<Request>, key: string, window: int, max: nat, since: int, until: int)
    requires requests != [] && Stream(requests, key, window, max, since, until)
    ensures Stream(requests, key, window, max, requests[0].now, until)
  {
  }

  /** A bucket opened within the stream lasts to its end: at most the maximum passes. */
  lemma {:induction false} OpenedLateBound(buckets: Buckets, requests: seq<Request>, key: string, window: int, max: nat, since: int, until: int)
    requires Stream(requests, key, window, max, since, until) && Current(buckets, key, since).None? && until < since + window
    ensures LetThrough(buckets, requests, key) <= max
    decreases requests
  {
    LetThroughFirst(buckets, requests, key);
    hide Stream, Serve, LetThrough;
    if requests != [] {
      var r := requests[0];
      StreamTail(requests, key, window, max, since, until);
      if r.key == key {
        ServeOpens(buckets, r);
        OneBucketBound(Serve(buckets, r), requests[1..], key, window, max, r.now, until);
      } else {
        ServeOther(buckets, r, key, r.now);
        OpenedLateBound(Serve(buckets, r), requests[1..], key, window, max, r.now, until);
      }
    }
  }

  lemma ServeOpens(buckets: Buckets, r: Request)
    ensures r.key in Serve(buckets, r) && Serve(buckets, r)[r.key] == Charged(buckets, r)
  {
  }

  function Left(max: nat, count: nat): nat { if count < max then max - count else 0 }

  /** From an open bucket, and ending before a third could open: what is left of it, and one maximum more. */
  lemma {:induction false} OpenBound(buckets: Buckets, requests: seq<Request>, key: string, window: int, max: nat, since: int, until: int)
    requires Stream(requests, key, window, max, since, until)
    requires Current(buckets, key, since).Some? && until < buckets[key].resetAt + window
    ensures LetThrough(buckets, requests, key) <= Left(max, buckets[key].count) + max
    decreases requests
  {
    LetThroughFirst(buckets, requests, key);
    hide Stream, Serve, LetThrough;
    if requests != [] {
      var r := requests[0];
      StreamTail(requests, key, window, max, since, until);
      if r.now >= buckets[key].resetAt {
        StreamFrom(requests, key, window, max, since, until);
        OpenedLateBound(buckets, requests, key, window, max, r.now, until);
      } else {
        ServeCurrent(buckets, r, key, r.now);
        OpenBound(Serve(buckets, r), requests[1..], key, window, max, r.now, until);
      }
    }
  }

  /** Within any interval no longer than the window, at most twice the maximum of a key's requests pass, whatever buckets
      were open before. */
  lemma {:induction false} TwiceTheMaximum(buckets: Buckets, requests: seq<Request>, key: string, window: int, max: nat, since: int, until: int)
    requires Stream(requests, key, window, max, since, until) && window > 0 && until <= since + window
    ensures LetThrough(buckets, requests, key) <= 2 * max
    decreases requests
  {
    LetThroughFirst(buckets, requests, key);
    hide Stream, Serve, LetThrough;
    if Current(buckets, key, since).Some? {
      OpenBound(buckets, requests, key, window, max, since, until);
    } else if requests != [] {
      var r := requests[0];
      StreamTail(requests, key, window, max, since, until);
      if r.key == key {
        ServeOpens(buckets, r);
        OpenBound(Serve(buckets, r), requests[1..], key, window, max, r.now, until);
      } else {
        TwiceTheMaximum(Serve(buckets, r), requests[1..], key, window, max, r.now, until);
      }
    }
  }

  /** How many of the requests are of a key. */
  function Sent(requests: seq<Request>, key: string): nat {
    if requests == [] then 0 else Sent(requests[..|requests| - 1], key) + (if requests[|requests| - 1].key == key then 1 else 0)
  }

  /** Every answer of an open bucket: the requests of the key up to the maximum pass and are told how many are left, every
      later one is told to wait. */
  lemma {:induction false} OneBucketAnswers(
    buckets: Buckets, requests: seq<Request>, key: string, window: int, max: nat, since: int, until: int, i: nat)
    requires Stream(requests, key, window, max, since, until) && Current(buckets, key, until).Some?
    requires i < |requests| && requests[i].key == key
    ensures i < |Answers(buckets, requests)|
    ensures
      var nth := buckets[key].count + Sent(requests[..i], key) + 1;
      var answer := Answers(buckets, requests)[i];
      if nth <= max then answer == Pass(max - nth) else answer.TooMany?
    decreases requests
  {
    AnswersLength(buckets, requests);
    hide Stream, Serve;
    var r := requests[0];
    StreamTail(requests, key, window, max, since, until);
    ServeCurrent(buckets, r, key, until);
    if i > 0 {
      assert requests[1..][i - 1] == requests[i];
      OneBucketAnswers(Serve(buckets, r), requests[1..], key, window, max, r.now, until, i - 1);
      SentFirst(requests[..i], key);
      assert requests[..i][1..] == requests[1..][..i - 1];
    }
  }

  lemma {:induction false} SentFirst(requests: seq<Request>, key: string)
    requires requests != []
    ensures Sent(requests, key) == (if requests[0].key == key then 1 else 0) + Sent(requests[1..], key)
    decreases |requests|
  {
    var n := |requests| - 1;
    if n > 0 {
      SentFirst(requests[..n], key);
      assert requests[..n][1..] == requests[1..][..n - 1];
    }
  }

  /** A fresh bucket: of the requests of a key without an open bucket, all within one window of the first, the first `max`
      pass and every later one is told to wait. */
  lemma {:induction false} FreshBucketAnswers(
    buckets: Buckets, requests: seq<Request>, key: string, window: int, max: nat, since: int, until: int, i: nat)
    requires Stream(requests, key, window, max, since, until) && Current(buckets, key, since).None? && until < since + window
    requires i < |requests| && requests[i].key == key
    ensures i < |Answers(buckets, requests)|
    ensures
      var nth := Sent(requests[..i], key) + 1;
      var answer := Answers(buckets, requests)[i];
      if nth <= max then answer == Pass(max - nth) else answer.TooMany?
    decreases requests
  {
    AnswersLength(buckets, requests);
    hide Stream, Serve;
    var r := requests[0];
    StreamTail(requests, key, window, max, since, until);
    if i > 0 {
      assert requests[1..][i - 1] == requests[i];
      SentFirst(requests[..i], key);
      assert requests[..i][1..] == requests[1..][..i - 1];
      if r.key == key {
        ServeOpens(buckets, r);
        OneBucketAnswers(Serve(buckets, r), requests[1..], key, window, max, r.now, until, i - 1);
      } else {
        ServeOther(buckets, r, key, r.now);
        FreshBucketAnswers(Serve(buckets, r), requests[1..], key, window, max, r.now, until, i - 1);
      }
    }
  }

  // ---- waiting ------------------------------------------------------------------------------

  /** Waiting as long as a refusal says is enough: the bucket is closed by then, and the next request of the key passes
      when any can. */
  lemma WaitingIsEnough(buckets: Buckets, r: Request, later: Request)
    requires AnswerTo(Charged(buckets, r), r).TooMany?
    requires later.key == r.key && later.max >= 1
    requires later.now >= r.now + 1000 * AnswerTo(Charged(buckets, r), r).retryAfter
    ensures AnswerTo(Charged(Serve(buckets, r), later), later) == Pass(later.max - 1)
  {
    CeilBound(Charged(buckets, r).resetAt - r.now, 1000);
    ServeOpens(buckets, r);
    hide Serve;
  }

  /** No second of it is told in vain: a request of the same options that comes a whole second too early, or at once when a
      single second was told, is refused as long as the bucket is open. */
  lemma WaitingIsNeeded(buckets: Buckets, r: Request, later: Request)
    requires AnswerTo(Charged(buckets, r), r).TooMany?
    requires later.key == r.key && later.max == r.max && r.now <= later.now < Charged(buckets, r).resetAt
    ensures AnswerTo(Charged(Serve(buckets, r), later), later).TooMany?
    ensures
      var told := AnswerTo(Charged(buckets, r), r).retryAfter;
      told > 1 ==> r.now + 1000 * (told - 1) < Charged(buckets, r).resetAt
  {
    CeilBound(Charged(buckets, r).resetAt - r.now, 1000);
    ServeOpens(buckets, r);
    hide Serve;
  }

  lemma CeilBound(x: int, k: int)
    requires k > 0
    ensures x <= k * Ceil(x, k) < x + k
  {
  }
}
