/** Delivery time windows: the slots offered for a day and the two closed forms of a day's capacity. */
module Windows {
  import opened Types
  import opened Decimal

  /** Times are texts HH:MM. */
  datatype Window = Window(start: string, end: string)

  datatype Offer = Offer(time: string, booked: nat, available: bool, past: bool)

  /** timeToMinutes, where None is NaN. */
  function TimeToMinutes(time: string): Option<nat> {
    var parts := Split(time, ':');
    if |parts| < 2 then None
    else
      var h, m := Number(parts[0]), Number(parts[1]);
      if h.Some? && m.Some? then Some(h.value * 60 + m.value) else None
  }

  function MinutesToTime(minutes: nat): string {
    PadStart(Text(minutes / 60), 2) + ":" + PadStart(Text(minutes % 60), 2)
  }

  lemma NoColon(s: string)
    requires AllDigits(s)
    ensures ':' !in s
  {
  }

  lemma SplitTime(h: string, m: string)
    requires AllDigits(h) && AllDigits(m)
    ensures Split(h + ":" + m, ':') == [h, m]
  {
    NoColon(h);
    NoColon(m);
    SplitNone(m, ':');
    SplitFirst(h, ':', m);
    assert h + ":" + m == h + [':'] + m;
  }

  /** A number of minutes is read back from its text, also past midnight; so different minutes have different texts. */
  lemma MinutesRoundTrip(minutes: nat)
    ensures TimeToMinutes(MinutesToTime(minutes)) == Some(minutes)
  {
    PaddedRoundTrip(minutes / 60, 2);
    PaddedRoundTrip(minutes % 60, 2);
    SplitTime(PadStart(Text(minutes / 60), 2), PadStart(Text(minutes % 60), 2));
  }

  /** The text of a time with two digits each is unchanged by the round trip the other way, as long as the minutes are
      below sixty. */
  lemma TimeRoundTrip(h: nat, m: nat)
    requires m < 60
    ensures
      var time := PadStart(Text(h), 2) + ":" + PadStart(Text(m), 2);
      TimeToMinutes(time) == Some(h * 60 + m) && MinutesToTime(h * 60 + m) == time
  {
    SplitMinutes(h, m);
    hide *;
    TextOf(h * 60 + m, h, m);
    NumberOf(h, m);
  }

  lemma SplitMinutes(h: nat, m: nat)
    requires m < 60
    ensures (h * 60 + m) / 60 == h && (h * 60 + m) % 60 == m
  {
  }

  lemma TextOf(minutes: nat, h: nat, m: nat)
    requires minutes / 60 == h && minutes % 60 == m
    ensures MinutesToTime(minutes) == PadStart(Text(h), 2) + ":" + PadStart(Text(m), 2)
  {
  }

  lemma NumberOf(h: nat, m: nat)
    ensures TimeToMinutes(PadStart(Text(h), 2) + ":" + PadStart(Text(m), 2)) == Some(h * 60 + m)
  {
    PaddedRoundTrip(h, 2);
    PaddedRoundTrip(m, 2);
    hide *;
    SplitTime(PadStart(Text(h), 2), PadStart(Text(m), 2));
    TimeOfParts(PadStart(Text(h), 2) + ":" + PadStart(Text(m), 2), PadStart(Text(h), 2), PadStart(Text(m), 2), h, m);
  }

  lemma TimeOfParts(time: string, a: string, b: string, h: nat, m: nat)
    requires Split(time, ':') == [a, b] && Number(a) == Some(h) && Number(b) == Some(m)
    ensures TimeToMinutes(time) == Some(h * 60 + m)
  {
    hide Split, Number;
  }

  predicate ValidWindow(w: Window) { TimeToMinutes(w.start).Some? && TimeToMinutes(w.end).Some? }

  function Start(w: Window): nat
    requires ValidWindow(w)
  {
    TimeToMinutes(w.start).value
  }

  function Finish(w: Window): nat
    requires ValidWindow(w)
  {
    TimeToMinutes(w.end).value
  }

  // ---- one window ---------------------------------------------------------------------------

  /** Math.max(0, Math.floor((end - start) / slotMinutes)) */
  function SlotCount(start: int, end: int, slotMinutes: int): (n: nat)
    requires slotMinutes > 0
  {
    if end - start < 0 then 0 else (end - start) / slotMinutes
  }

  /** The closed form is the number of slots that fit. */
  lemma SlotCountFits(start: int, end: int, slotMinutes: int, k: nat)
    requires slotMinutes > 0
    ensures start + (k + 1) * slotMinutes <= end <==> k < SlotCount(start, end, slotMinutes)
  {
    var n := SlotCount(start, end, slotMinutes);
    if end >= start {
      assert n * slotMinutes <= end - start < (n + 1) * slotMinutes;
      if k < n {
        Grows(k + 1, n, slotMinutes);
      } else {
        Grows(n + 1, k + 1, slotMinutes);
      }
    } else {
      Grows(0, k + 1, slotMinutes);
    }
  }

  lemma Grows(a: nat, b: nat, k: int)
    requires a <= b && k > 0
    ensures a * k <= b * k
  {
    assert b * k == a * k + (b - a) * k;
  }

  /** One pass of the loop of getAvailableSlots over a window: evenly spaced starts, every one that fits the window. */
  method WindowStarts(start: nat, end: nat, slotMinutes: int) returns (starts: seq<nat>)
    requires slotMinutes > 0
    ensures |starts| == SlotCount(start, end, slotMinutes)
    ensures forall i :: 0 <= i < |starts| ==> starts[i] == start + i * slotMinutes && starts[i] + slotMinutes <= end
    ensures start + |starts| * slotMinutes + slotMinutes > end
  {
    starts := [];
    var cur := start;
    while cur + slotMinutes <= end
      invariant cur == start + |starts| * slotMinutes
      invariant forall i :: 0 <= i < |starts| ==> starts[i] == start + i * slotMinutes && starts[i] + slotMinutes <= end
      invariant |starts| == 0 || start + |starts| * slotMinutes <= end
      decreases end - cur
    {
      NextStart(start, |starts|, slotMinutes);
      starts := starts + [cur];
      cur := cur + slotMinutes;
    }
    SlotCountFits(start, end, slotMinutes, |starts|);
    NextStart(start, |starts|, slotMinutes);
    if |starts| > 0 {
      SlotCountFits(start, end, slotMinutes, |starts| - 1);
    }
  }

  lemma NextStart(start: int, k: nat, slotMinutes: int)
    ensures start + (k + 1) * slotMinutes == start + k * slotMinutes + slotMinutes
  {
  }

  // ---- the whole day ------------------------------------------------------------------------

  function TotalSlots(windows: seq<Window>, slotMinutes: int): nat
    requires slotMinutes > 0 && forall i :: 0 <= i < |windows| ==> ValidWindow(windows[i])
  {
    if windows == [] then 0
    else
      var last := windows[|windows| - 1];
      TotalSlots(windows[..|windows| - 1], slotMinutes) + SlotCount(Start(last), Finish(last), slotMinutes)
  }

  /** The reduce of estimateDailyCapacity and getRegistrationDailyCapacity, in order. */
  function Reduce(windows: seq<Window>, slotMinutes: int, max: int, total: int): int
    requires slotMinutes > 0 && forall i :: 0 <= i < |windows| ==> ValidWindow(windows[i])
    decreases windows
  {
    if windows == [] then total
    else Reduce(windows[1..], slotMinutes, max, total + SlotCount(Start(windows[0]), Finish(windows[0]), slotMinutes) * max)
  }

  /** estimateDailyCapacity */
  function EstimatedCapacity(windows: seq<Window>, slotMinutes: int, max: int): int
    requires forall i :: 0 <= i < |windows| ==> ValidWindow(windows[i])
  {
    if slotMinutes <= 0 || max <= 0 then 0 else Reduce(windows, slotMinutes, max, 0)
  }

  /** getRegistrationDailyCapacity: no windows, no capacity. */
  function RegistrationCapacity(windows: seq<Window>, slotMinutes: int, max: int): Option<int>
    requires slotMinutes > 0 && forall i :: 0 <= i < |windows| ==> ValidWindow(windows[i])
  {
    if windows == [] then None else Some(Reduce(windows, slotMinutes, max, 0))
  }

  /** The slot offered at a start. */
  function OfferAt(start: nat, max: int, counts: map<string, nat>, isToday: bool, now: int): Offer {
    var time := MinutesToTime(start);
    var booked := if time in counts then counts[time] else 0;
    var past := isToday && start <= now;
    Offer(time, booked, !past && booked < max, past)
  }

  /** What the page asks for: the maximum, the bookings by time, and where the clock stands. */
  datatype Query = Query(max: int, counts: map<string, nat>, isToday: bool, now: int)

  /** The first `n` offers of a window. */
  function WindowOffers(start: nat, slotMinutes: nat, n: nat, q: Query): (offers: seq<Offer>)
    ensures |offers| == n
    ensures forall i :: 0 <= i < n ==> offers[i] == OfferAt(start + i * slotMinutes, q.max, q.counts, q.isToday, q.now)
  {
    if n == 0 then [] else WindowOffers(start, slotMinutes, n - 1, q) + [OfferAt(start + (n - 1) * slotMinutes, q.max, q.counts, q.isToday, q.now)]
  }

  /** The offers of all windows, in order. */
  function Offers(windows: seq<Window>, slotMinutes: int, q: Query): (offers: seq<Offer>)
    requires slotMinutes > 0 && forall i :: 0 <= i < |windows| ==> ValidWindow(windows[i])
    ensures |offers| == TotalSlots(windows, slotMinutes)
  {
    if windows == [] then []
    else
      var last := windows[|windows| - 1];
      Offers(windows[..|windows| - 1], slotMinutes, q)
      + WindowOffers(Start(last), slotMinutes, SlotCount(Start(last), Finish(last), slotMinutes), q)
  }

  /** getAvailableSlots, after its guards. */
  method AvailableSlots(windows: seq<Window>, slotMinutes: int, q: Query) returns (slots: seq<Offer>)
    requires slotMinutes > 0 && forall i :: 0 <= i < |windows| ==> ValidWindow(windows[i])
    ensures slots == Offers(windows, slotMinutes, q) && |slots| == TotalSlots(windows, slotMinutes)
  {
    hide OfferAt, TimeToMinutes, SlotCount;
    slots := [];
    for w := 0 to |windows|
      invariant slots == Offers(windows[..w], slotMinutes, q)
    {
      var starts := WindowStarts(Start(windows[w]), Finish(windows[w]), slotMinutes);
      ghost var before := slots;
      for k := 0 to |starts|
        invariant slots == before + WindowOffers(Start(windows[w]), slotMinutes, k, q)
      {
        slots := slots + [OfferAt(starts[k], q.max, q.counts, q.isToday, q.now)];
      }
      assert windows[..w + 1][..w] == windows[..w];
    }
    assert windows[..|windows|] == windows;
  }

  lemma {:induction false} ReduceIsTotal(windows: seq<Window>, slotMinutes: int, max: int, total: int)
    requires slotMinutes > 0 && forall i :: 0 <= i < |windows| ==> ValidWindow(windows[i])
    ensures Reduce(windows, slotMinutes, max, total) == total + TotalSlots(windows, slotMinutes) * max
    decreases windows
  {
    hide ValidWindow, SlotCount, Start, Finish;
    if windows != [] {
      var first := SlotCount(Start(windows[0]), Finish(windows[0]), slotMinutes);
      ReduceIsTotal(windows[1..], slotMinutes, max, total + first * max);
      TotalFromFront(windows, slotMinutes);
      Distribute(first, TotalSlots(windows[1..], slotMinutes), max);
    }
  }

  lemma Distribute(a: int, b: int, k: int)
    ensures (a + b) * k == a * k + b * k
  {
  }

  lemma {:induction false} TotalFromFront(windows: seq<Window>, slotMinutes: int)
    requires slotMinutes > 0 && windows != [] && forall i :: 0 <= i < |windows| ==> ValidWindow(windows[i])
    ensures TotalSlots(windows, slotMinutes)
            == SlotCount(Start(windows[0]), Finish(windows[0]), slotMinutes) + TotalSlots(windows[1..], slotMinutes)
    decreases |windows|
  {
    hide ValidWindow, SlotCount, Start, Finish;
    var n := |windows| - 1;
    if n > 0 {
      TotalFromFront(windows[..n], slotMinutes);
      assert windows[..n][1..] == windows[1..][..n - 1];
    }
  }

  /** Both closed forms are the number of slots the loop offers times the maximum; the estimate also when the
      configuration offers nothing. */
  lemma CapacityIsLoopLength(windows: seq<Window>, slotMinutes: int, max: int)
    requires slotMinutes > 0 && forall i :: 0 <= i < |windows| ==> ValidWindow(windows[i])
    ensures windows != [] ==> RegistrationCapacity(windows, slotMinutes, max) == Some(TotalSlots(windows, slotMinutes) * max)
    ensures EstimatedCapacity(windows, slotMinutes, max) == TotalSlots(windows, slotMinutes) * (if max > 0 then max else 0)
  {
    ReduceIsTotal(windows, slotMinutes, max, 0);
  }

  /** The calendar's estimate and the capacity a registration is checked against are the same number, unless the maximum
      is negative and a slot fits. */
  lemma EstimateIsWhatIsChecked(windows: seq<Window>, slotMinutes: int, max: int)
    requires slotMinutes > 0 && windows != [] && forall i :: 0 <= i < |windows| ==> ValidWindow(windows[i])
    ensures RegistrationCapacity(windows, slotMinutes, max) == Some(EstimatedCapacity(windows, slotMinutes, max))
            <==> max >= 0 || TotalSlots(windows, slotMinutes) == 0
  {
    CapacityIsLoopLength(windows, slotMinutes, max);
    NegativeProduct(TotalSlots(windows, slotMinutes), max);
  }

  lemma NegativeProduct(n: nat, k: int)
    ensures k < 0 ==> (n * k == 0 <==> n == 0)
  {
  }

  /** One offer, in the terms of its time text. */
  ghost predicate Tells(offer: Offer, q: Query) {
    && TimeToMinutes(offer.time).Some?
    && offer.booked == (if offer.time in q.counts then q.counts[offer.time] else 0)
    && (offer.past <==> q.isToday && TimeToMinutes(offer.time).value <= q.now)
    && (offer.available <==> !(q.isToday && TimeToMinutes(offer.time).value <= q.now) && offer.booked < q.max)
  }

  /** A slot of this length that starts at the offer's time lies in the window. */
  ghost predicate LiesIn(offer: Offer, w: Window, slotMinutes: int) {
    && TimeToMinutes(offer.time).Some? && ValidWindow(w)
    && Start(w) <= TimeToMinutes(offer.time).value && TimeToMinutes(offer.time).value + slotMinutes <= Finish(w)
  }

  lemma OfferAtTells(start: nat, q: Query)
    ensures Tells(OfferAt(start, q.max, q.counts, q.isToday, q.now), q)
    ensures TimeToMinutes(OfferAt(start, q.max, q.counts, q.isToday, q.now).time) == Some(start)
  {
    MinutesRoundTrip(start);
    hide MinutesToTime, TimeToMinutes;
  }

  lemma LastWindow(w: Window, slotMinutes: int, q: Query, k: nat)
    requires slotMinutes > 0 && ValidWindow(w) && k < SlotCount(Start(w), Finish(w), slotMinutes)
    ensures
      var offers := WindowOffers(Start(w), slotMinutes, SlotCount(Start(w), Finish(w), slotMinutes), q);
      k < |offers| && Tells(offers[k], q) && LiesIn(offers[k], w, slotMinutes)
  {
    hide *;
    var at := KthStart(Start(w), Finish(w), slotMinutes, k);
    OfferAtTells(at, q);
    assert WindowOffers(Start(w), slotMinutes, SlotCount(Start(w), Finish(w), slotMinutes), q)[k]
           == OfferAt(at, q.max, q.counts, q.isToday, q.now);
    LiesInIs(OfferAt(at, q.max, q.counts, q.isToday, q.now), w, slotMinutes, at);
  }

  lemma LiesInIs(offer: Offer, w: Window, slotMinutes: int, at: nat)
    requires TimeToMinutes(offer.time) == Some(at) && ValidWindow(w) && Start(w) <= at && at + slotMinutes <= Finish(w)
    ensures LiesIn(offer, w, slotMinutes)
  {
  }

  lemma KthStart(start: nat, end: nat, slotMinutes: int, k: nat) returns (at: nat)
    requires slotMinutes > 0 && k < SlotCount(start, end, slotMinutes)
    ensures at == start + k * slotMinutes && start <= at && at + slotMinutes <= end
  {
    SlotCountFits(start, end, slotMinutes, k);
    NextStart(start, k, slotMinutes);
    Grows(0, k, slotMinutes);
    at := start + k * slotMinutes;
  }

  /** What an offer tells: its slot lies in one of the windows, it is past exactly when the day is today and the clock has
      reached its time, and it is available exactly when it is not past and has fewer bookings than the maximum. */
  lemma {:induction false} OfferTells(windows: seq<Window>, slotMinutes: int, q: Query, i: nat)
    requires slotMinutes > 0 && forall w :: 0 <= w < |windows| ==> ValidWindow(windows[w])
    requires i < |Offers(windows, slotMinutes, q)|
    ensures
      var offer := Offers(windows, slotMinutes, q)[i];
      && TimeToMinutes(offer.time).Some?
      && offer.booked == (if offer.time in q.counts then q.counts[offer.time] else 0)
      && (offer.past <==> q.isToday && TimeToMinutes(offer.time).value <= q.now)
      && (offer.available <==> !(q.isToday && TimeToMinutes(offer.time).value <= q.now) && offer.booked < q.max)
      && exists w :: 0 <= w < |windows| && LiesIn(offer, windows[w], slotMinutes)
  {
    var w := TellingWindow(windows, slotMinutes, q, i);
    hide Offers, TimeToMinutes, LiesIn;
  }

  lemma {:induction false} TellingWindow(windows: seq<Window>, slotMinutes: int, q: Query, i: nat) returns (w: nat)
    requires slotMinutes > 0 && forall w :: 0 <= w < |windows| ==> ValidWindow(windows[w])
    requires i < |Offers(windows, slotMinutes, q)|
    ensures w < |windows| && Tells(Offers(windows, slotMinutes, q)[i], q) && LiesIn(Offers(windows, slotMinutes, q)[i], windows[w], slotMinutes)
    decreases |windows|
  {
    hide Tells, LiesIn, SlotCount, Start, Finish, ValidWindow, WindowOffers;
    var n := |windows| - 1;
    var before := Offers(windows[..n], slotMinutes, q);
    if i < |before| {
      w := TellingWindow(windows[..n], slotMinutes, q, i);
    } else {
      LastWindow(windows[n], slotMinutes, q, i - |before|);
      w := n;
    }
  }
}
