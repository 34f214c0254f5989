/** Push receipts of the service worker: the cache that keeps, per trip, the newest notice shown to the driver.
    Timestamps are ISO strings compared as text, modelled as numbers; None is the empty string. */
module Push {
  import opened Types

  const MAX_RECEIPTS: nat := 30

  datatype Notice = Notice(code: string, status: Status, occurredAt: Option<int>, text: string)

  type Cache = seq<Notice>

  /** eventId: the code, the status and the time. */
  predicate SameEvent(a: Notice, b: Notice) { a.code == b.code && a.status == b.status && a.occurredAt == b.occurredAt }

  predicate IsFinal(status: Status) {
    status == Completed || status == Cancelled || status == Expired || status == Incompleted
  }

  /** The test that lets a received push be shown again silently instead of replacing what is stored. */
  predicate Obsolete(previous: Notice, payload: Notice) {
    SameEvent(previous, payload)
    || (previous.occurredAt.Some? && payload.occurredAt.Some? && previous.occurredAt.value > payload.occurredAt.value)
    || IsFinal(previous.status)
  }

  /** Where the receipt of a code is; past the end when there is none. */
  function Find(cache: Cache, code: string): (i: nat)
    ensures i <= |cache| && (i < |cache| ==> cache[i].code == code)
    ensures forall j :: 0 <= j < i ==> cache[j].code != code
  {
    if cache == [] || cache[0].code == code then 0 else 1 + Find(cache[1..], code)
  }

  function Stored(cache: Cache, code: string): Option<Notice> {
    if Find(cache, code) < |cache| then Some(cache[Find(cache, code)]) else None
  }

  function Without(cache: Cache, code: string): Cache {
    if Find(cache, code) < |cache| then cache[..Find(cache, code)] + cache[Find(cache, code) + 1..] else cache
  }

  /** cache.put: an entry of the same key goes, the new one comes last. */
  function Put(cache: Cache, notice: Notice): Cache { Without(cache, notice.code) + [notice] }

  function Newest(cache: Cache, n: nat): Cache { if |cache| <= n then cache else cache[|cache| - n..] }

  /** What one push leaves in the cache. */
  function Handle(cache: Cache, payload: Notice): Cache {
    if payload.code == "" then cache
    else
      var previous := Stored(cache, payload.code);
      if previous.Some? && Obsolete(previous.value, payload) then cache else Newest(Put(cache, payload), MAX_RECEIPTS)
  }

  datatype Shown = Shown(text: string, again: bool)

  class Receipts {
    var cache: Cache

    constructor ()
      ensures cache == []
    {
      cache := [];
    }

    /** trimCache: delete the oldest keys above the maximum. */
    method Trim(max: nat)
      modifies this
      ensures cache == Newest(old(cache), max)
    {
      while |cache| > max
        invariant |cache| <= |old(cache)| && cache == old(cache)[|old(cache)| - |cache|..]
        invariant |cache| >= max || cache == old(cache)
      {
        cache := cache[1..];
      }
    }

    /** handleDriverPush: every push is shown; an obsolete one shows the stored notice again. */
    method Push(payload: Notice) returns (shown: Option<Shown>)
      modifies this
      ensures cache == Handle(old(cache), payload)
      ensures payload.code == "" ==> shown == None
      ensures payload.code != "" ==>
        var previous := Stored(old(cache), payload.code);
        shown == Some(if previous.Some? && Obsolete(previous.value, payload) then Shown(previous.value.text, true)
                      else Shown(payload.text, false))
    {
      if payload.code == "" { return None; }
      var previous := Stored(cache, payload.code);
      if previous.Some? && Obsolete(previous.value, payload) {
        return Some(Shown(previous.value.text, true));
      }
      shown := Some(Shown(payload.text, false));
      cache := Put(cache, payload);
      Trim(MAX_RECEIPTS);
    }
  }

  /** The pushWork chain handles the pushes one after another, in the order they arrive. */
  function After(cache: Cache, arrivals: seq<Notice>): Cache {
    if arrivals == [] then cache
    else Handle(After(cache, arrivals[..|arrivals| - 1]), arrivals[|arrivals| - 1])
  }

  // ---- the cache ----------------------------------------------------------------------------

  ghost predicate Distinct(cache: Cache) {
    forall i, j :: 0 <= i < j < |cache| ==> cache[i].code != cache[j].code
  }

  lemma FindIs(cache: Cache, code: string, i: nat)
    requires i <= |cache| && (i < |cache| ==> cache[i].code == code)
    requires forall j :: 0 <= j < i ==> cache[j].code != code
    ensures Find(cache, code) == i
  {
  }

  lemma PutStored(cache: Cache, notice: Notice, code: string)
    requires Distinct(cache)
    ensures Distinct(Put(cache, notice))
    ensures Stored(Put(cache, notice), code) == if code == notice.code then Some(notice) else Stored(cache, code)
  {
    var put, at, i := Put(cache, notice), Find(cache, notice.code), Find(cache, code);
    hide Find;
    if code == notice.code {
      FindIs(put, code, |put| - 1);
    } else if i < |cache| {
      FindIs(put, code, if at < i then i - 1 else i);
    } else {
      FindIs(put, code, |put|);
    }
  }

  lemma NewestStored(cache: Cache, n: nat, code: string)
    requires Distinct(cache)
    ensures Distinct(Newest(cache, n))
    ensures
      var stored := Stored(Newest(cache, n), code);
      if Find(cache, code) + n >= |cache| then stored == Stored(cache, code) else stored == None
  {
    var kept, i := Newest(cache, n), Find(cache, code);
    hide Find;
    if |cache| > n {
      var cut := |cache| - n;
      if cut <= i {
        FindIs(kept, code, i - cut);
      } else {
        forall j | 0 <= j < |kept| ensures kept[j].code != code {
          assert kept[j] == cache[cut + j];
        }
        FindIs(kept, code, |kept|);
      }
    }
  }

  /** The cache never holds more than thirty receipts, and one per code. */
  lemma HandleKeepsCache(cache: Cache, payload: Notice)
    requires Distinct(cache) && |cache| <= MAX_RECEIPTS
    ensures Distinct(Handle(cache, payload)) && |Handle(cache, payload)| <= MAX_RECEIPTS <= 30
  {
    PutStored(cache, payload, payload.code);
    NewestStored(Put(cache, payload), MAX_RECEIPTS, payload.code);
  }

  predicate Replaces(cache: Cache, payload: Notice) {
    payload.code != "" && !(Stored(cache, payload.code).Some? && Obsolete(Stored(cache, payload.code).value, payload))
  }

  /** A push makes its notice the receipt of its code or changes nothing there; of the other codes it can evict one, the
      oldest, and does so exactly when a new code meets a full cache. */
  lemma HandleStored(cache: Cache, payload: Notice, code: string)
    requires Distinct(cache) && |cache| <= MAX_RECEIPTS
    ensures
      var stored := Stored(Handle(cache, payload), code);
      if !Replaces(cache, payload) then stored == Stored(cache, code)
      else if code == payload.code then stored == Some(payload)
      else if |cache| == MAX_RECEIPTS && Stored(cache, payload.code).None? && cache[0].code == code then stored == None
      else stored == Stored(cache, code)
  {
    hide Find;
    if Replaces(cache, payload) {
      var put := Put(cache, payload);
      PutStored(cache, payload, code);
      NewestStored(put, MAX_RECEIPTS, code);
      if |put| > MAX_RECEIPTS {
        assert put[0] == cache[0];
        FirstFound(put, code);
      }
    }
  }

  lemma FirstFound(cache: Cache, code: string)
    requires cache != []
    ensures Find(cache, code) == 0 <==> cache[0].code == code
  {
  }

  /** When a push replaces the receipt of its trip, in the columns: the stored one is not of a closed delivery, is not the
      same notice again, and is not later where both have a time. */
  lemma ReplacedExactly(cache: Cache, payload: Notice, previous: Notice)
    requires Distinct(cache) && |cache| <= MAX_RECEIPTS && payload.code != "" && Stored(cache, payload.code) == Some(previous)
    ensures
      Stored(Handle(cache, payload), payload.code)
      == if || previous.status in {Completed, Cancelled, Expired, Incompleted}
            || (previous.status == payload.status && previous.occurredAt == payload.occurredAt)
            || (previous.occurredAt.Some? && payload.occurredAt.Some? && payload.occurredAt.value < previous.occurredAt.value)
         then Some(previous)
         else Some(payload)
  {
    HandleStored(cache, payload, payload.code);
    hide Find;
  }

  /** A stored final status never changes while the receipt is not evicted. */
  lemma FinalStays(cache: Cache, payload: Notice, code: string)
    requires Distinct(cache) && |cache| <= MAX_RECEIPTS
    requires Stored(cache, code).Some? && Stored(cache, code).value.status in {Completed, Cancelled, Expired, Incompleted}
    ensures Stored(Handle(cache, payload), code).Some? ==> Stored(Handle(cache, payload), code) == Stored(cache, code)
  {
    HandleStored(cache, payload, code);
  }

  /** Over whole runs too: as long as the trip keeps a receipt, a final status stays what it was. */
  lemma {:induction false} RunKeepsFinal(cache: Cache, arrivals: seq<Notice>, n: nat, code: string)
    requires Distinct(cache) && |cache| <= MAX_RECEIPTS && n <= |arrivals|
    requires Stored(cache, code).Some? && Stored(cache, code).value.status in {Completed, Cancelled, Expired, Incompleted}
    requires forall k :: 0 <= k <= n ==> Stored(After(cache, arrivals[..k]), code).Some?
    ensures Stored(After(cache, arrivals[..n]), code) == Stored(cache, code)
    ensures Distinct(After(cache, arrivals[..n])) && |After(cache, arrivals[..n])| <= MAX_RECEIPTS
  {
    hide Handle, Stored, Distinct, Find;
    if n == 0 {
      assert arrivals[..0] == [];
    } else {
      RunKeepsFinal(cache, arrivals, n - 1, code);
      assert arrivals[..n][..n - 1] == arrivals[..n - 1];
      var before := After(cache, arrivals[..n - 1]);
      HandleKeepsCache(before, arrivals[n - 1]);
      FinalStays(before, arrivals[n - 1], code);
      assert Stored(After(cache, arrivals[..n]), code).Some?;
    }
  }

  /** A stored time decreases in no push: it is kept or rises, except that a notice without a time erases it. */
  lemma TimesNeverDecrease(cache: Cache, payload: Notice, code: string)
    requires Distinct(cache) && |cache| <= MAX_RECEIPTS
    requires Stored(cache, code).Some? && Stored(cache, code).value.occurredAt.Some?
    requires Stored(Handle(cache, payload), code).Some?
    ensures
      var before, after := Stored(cache, code).value.occurredAt, Stored(Handle(cache, payload), code).value.occurredAt;
      (after.Some? && after.value >= before.value) <==> !(code == payload.code && Replaces(cache, payload) && payload.occurredAt.None?)
  {
    HandleStored(cache, payload, code);
  }

  // ---- convergence --------------------------------------------------------------------------

  /** The codes of a run fit the cache, so that nothing is evicted. */
  ghost predicate Fit(cache: Cache, arrivals: seq<Notice>, codes: set<string>) {
    && |codes| <= MAX_RECEIPTS && Distinct(cache)
    && (forall i :: 0 <= i < |cache| ==> cache[i].code in codes)
    && (forall i :: 0 <= i < |arrivals| ==> arrivals[i].code in codes)
  }

  lemma {:induction false} DistinctFit(cache: Cache, codes: set<string>)
    requires Distinct(cache) && forall i :: 0 <= i < |cache| ==> cache[i].code in codes
    ensures |cache| <= |codes|
  {
    if cache != [] {
      var rest := cache[..|cache| - 1];
      DistinctFit(rest, codes - {cache[|cache| - 1].code});
    }
  }

  lemma PutFits(cache: Cache, payload: Notice, codes: set<string>)
    requires Fit(cache, [payload], codes)
    ensures Fit(Handle(cache, payload), [], codes) && (Replaces(cache, payload) ==> Handle(cache, payload) == Put(cache, payload))
  {
    assert [payload][0] == payload;
    PutStored(cache, payload, payload.code);
    hide Find;
    var put := Put(cache, payload);
    forall i | 0 <= i < |put| ensures put[i].code in codes {
      assert put[i] in cache || put[i] == payload;
    }
    DistinctFit(put, codes);
  }

  lemma {:induction false} RunFits(cache: Cache, arrivals: seq<Notice>, codes: set<string>)
    requires Fit(cache, arrivals, codes)
    ensures Fit(After(cache, arrivals), [], codes)
  {
    hide Handle;
    if arrivals != [] {
      RunFits(cache, arrivals[..|arrivals| - 1], codes);
      PutFits(After(cache, arrivals[..|arrivals| - 1]), arrivals[|arrivals| - 1], codes);
    }
  }

  /** Two notices of one trip: they have times, different ones have different times, and a final one is not older. */
  predicate TripPair(a: Notice, b: Notice, code: string) {
    a.code == code && b.code == code ==>
      && a.occurredAt.Some? && b.occurredAt.Some? && (a.occurredAt == b.occurredAt ==> a == b)
      && (IsFinal(a.status) ==> b.occurredAt.value <= a.occurredAt.value)
  }

  ghost predicate OneTrip(arrivals: seq<Notice>, code: string) {
    forall a, b :: a in arrivals && b in arrivals ==> TripPair(a, b, code)
  }

  predicate NotNewer(a: Notice, notice: Notice, code: string) {
    a.code == code && a.occurredAt.Some? && notice.occurredAt.Some? ==> a.occurredAt.value <= notice.occurredAt.value
  }

  /** The notice of `code` among the arrivals with the latest time. */
  ghost predicate IsLatest(arrivals: seq<Notice>, code: string, notice: Notice) {
    notice.code == code && notice in arrivals && notice.occurredAt.Some? && forall a :: a in arrivals ==> NotNewer(a, notice, code)
  }

  ghost predicate Settled(cache: Cache, arrivals: seq<Notice>, code: string) {
    match Stored(cache, code)
    case Some(notice) => IsLatest(arrivals, code, notice)
    case None => forall a :: a in arrivals ==> a.code != code
  }

  lemma PushSettles(cache: Cache, arrivals: seq<Notice>, payload: Notice, code: string, codes: set<string>)
    requires Fit(cache, [payload], codes) && Settled(cache, arrivals, code) && OneTrip(arrivals + [payload], code) && code != ""
    ensures Settled(Handle(cache, payload), arrivals + [payload], code)
  {
    PutFits(cache, payload, codes);
    DistinctFit(cache, codes);
    PutStored(cache, payload, code);
    HandleStored(cache, payload, code);
    var all := arrivals + [payload];
    assert payload in all && forall a :: a in all <==> a in arrivals || a == payload;
    hide Handle, Put, Find, Fit, Distinct, Stored;
    if Replaces(cache, payload) && payload.code == code {
      assert TripPair(payload, payload, code);
      forall a | a in all ensures NotNewer(a, payload, code) {
        if Stored(cache, code).Some? && a != payload {
          assert NotNewer(a, Stored(cache, code).value, code);
        }
      }
    } else if payload.code == code {
      StoredIsNewer(arrivals, payload, code, Stored(cache, code).value);
    }
  }

  /** What makes a push obsolete makes it not newer. */
  lemma StoredIsNewer(arrivals: seq<Notice>, payload: Notice, code: string, stored: Notice)
    requires stored in arrivals && stored.code == code && payload.code == code && Obsolete(stored, payload)
    requires OneTrip(arrivals + [payload], code)
    ensures NotNewer(payload, stored, code)
  {
    assert stored in arrivals + [payload] && payload in arrivals + [payload];
    assert TripPair(stored, payload, code);
  }

  lemma {:induction false} RunSettles(cache: Cache, arrivals: seq<Notice>, n: nat, code: string, codes: set<string>)
    requires Fit(cache, arrivals, codes) && OneTrip(arrivals, code) && Stored(cache, code) == None && n <= |arrivals| && code != ""
    ensures Settled(After(cache, arrivals[..n]), arrivals[..n], code)
  {
    hide Stored, Handle, OneTrip, IsLatest;
    if n == 0 {
      EmptyRun(cache, code);
      assert arrivals[..0] == [];
    } else {
      RunSettles(cache, arrivals, n - 1, code, codes);
      var before, payload := arrivals[..n - 1], arrivals[n - 1];
      assert arrivals[..n] == before + [payload] && arrivals[..n][..n - 1] == before;
      RunFits(cache, before, codes);
      PrefixTrip(arrivals, n, code);
      assert Fit(After(cache, before), [payload], codes);
      PushSettles(After(cache, before), before, payload, code, codes);
    }
  }

  lemma EmptyRun(cache: Cache, code: string)
    requires Stored(cache, code) == None
    ensures Settled(After(cache, []), [], code)
  {
  }

  lemma PrefixTrip(arrivals: seq<Notice>, n: nat, code: string)
    requires OneTrip(arrivals, code) && n <= |arrivals|
    ensures OneTrip(arrivals[..n], code)
  {
  }

  /** Every order of arrival, with duplicates and mixed with other trips, ends with the newest notice of the trip stored. */
  lemma PushesConverge(cache: Cache, arrivals: seq<Notice>, code: string, codes: set<string>, newest: Notice)
    requires Fit(cache, arrivals, codes) && OneTrip(arrivals, code) && Stored(cache, code) == None && code != ""
    requires IsLatest(arrivals, code, newest)
    ensures Stored(After(cache, arrivals), code) == Some(newest)
  {
    RunSettles(cache, arrivals, |arrivals|, code, codes);
    assert arrivals[..|arrivals|] == arrivals;
    hide Find, After, Fit, Stored, OneTrip, IsLatest;
    if Stored(After(cache, arrivals), code).Some? {
      LatestIsUnique(arrivals, code, newest, Stored(After(cache, arrivals), code).value);
    } else {
      LatestIsThere(arrivals, code, newest);
    }
  }

  lemma LatestIsUnique(arrivals: seq<Notice>, code: string, a: Notice, b: Notice)
    requires OneTrip(arrivals, code) && IsLatest(arrivals, code, a) && IsLatest(arrivals, code, b)
    ensures a == b
  {
    assert NotNewer(a, b, code) && NotNewer(b, a, code) && TripPair(a, b, code);
  }

  lemma LatestIsThere(arrivals: seq<Notice>, code: string, a: Notice)
    requires IsLatest(arrivals, code, a)
    ensures a in arrivals && a.code == code
  {
  }
}
