/** Registration codes and queue tickets: numbers drawn from stored counters that start above the existing rows. */
module Sequences {
  import opened Types
  import opened Decimal
  import opened Calendar

  // ---- the stored counter -------------------------------------------------------------------

  /** The number an upsert hands out: the stored next number, or one above the existing maximum. */
  function Issued<K>(next: map<K, nat>, key: K, existingMax: nat): nat {
    if key in next then next[key] else existingMax + 1
  }

  /** The table registration_sequences or ticket_sequences. */
  class Counters<K(==)> {
    var next: map<K, nat>

    constructor ()
      ensures next == map[]
    {
      next := map[];
    }

    /** reserveRegistrationCode and reserveTicketNumber: create with existingMax + 2 or increment, then subtract one. */
    method Reserve(key: K, existingMax: nat) returns (number: nat)
      requires forall k :: k in next ==> next[k] > 0
      modifies this
      ensures forall k :: k in next ==> next[k] > 0
      ensures number == Issued(old(next), key, existingMax)
      ensures next == old(next)[key := number + 1]
    {
      if key in next {
        next := next[key := next[key] + 1];
      } else {
        next := next[key := existingMax + 2];
      }
      number := next[key] - 1;
    }
  }

  datatype Draw<K> = Draw(key: K, existingMax: nat)

  /** The counters after a run of draws.  Each draw sees whatever maximum the rows show at that time. */
  function After<K>(next: map<K, nat>, draws: seq<Draw<K>>): map<K, nat> {
    if draws == [] then next
    else
      var before, last := After(next, draws[..|draws| - 1]), draws[|draws| - 1];
      before[last.key := Issued(before, last.key, last.existingMax) + 1]
  }

  function NumberAt<K>(next: map<K, nat>, draws: seq<Draw<K>>, i: nat): nat
    requires i < |draws|
  {
    Issued(After(next, draws[..i]), draws[i].key, draws[i].existingMax)
  }

  lemma AfterDraw<K>(next: map<K, nat>, draws: seq<Draw<K>>, i: nat)
    requires i < |draws|
    ensures After(next, draws[..i + 1]) == After(next, draws[..i])[draws[i].key := NumberAt(next, draws, i) + 1]
  {
    assert draws[..i + 1][..i] == draws[..i];
  }

  function CountOf<K(==)>(draws: seq<Draw<K>>, key: K, from: nat, to: nat): nat
    requires from <= to <= |draws|
  {
    if from == to then 0 else CountOf(draws, key, from, to - 1) + (if draws[to - 1].key == key then 1 else 0)
  }

  lemma {:induction false} CounterGrows<K>(next: map<K, nat>, draws: seq<Draw<K>>, i: nat, to: nat)
    requires i < to <= |draws|
    ensures
      var c := After(next, draws[..to]);
      draws[i].key in c && c[draws[i].key] == NumberAt(next, draws, i) + CountOf(draws, draws[i].key, i, to)
  {
    AfterDraw(next, draws, to - 1);
    if i + 1 < to {
      CounterGrows(next, draws, i, to - 1);
    }
  }

  /** Numbers of one key are consecutive in the order drawn, whatever happened to the rows in between. */
  lemma NumbersAreConsecutive<K>(next: map<K, nat>, draws: seq<Draw<K>>, i: nat, j: nat)
    requires i < j < |draws| && draws[i].key == draws[j].key
    ensures NumberAt(next, draws, j) == NumberAt(next, draws, i) + CountOf(draws, draws[i].key, i, j)
    ensures NumberAt(next, draws, j) > NumberAt(next, draws, i)
  {
    CounterGrows(next, draws, i, j);
    CountFirst(draws, i, j);
  }

  lemma {:induction false} CountFirst<K>(draws: seq<Draw<K>>, i: nat, j: nat)
    requires i < j <= |draws|
    ensures CountOf(draws, draws[i].key, i, j) >= 1
  {
    if i + 1 < j {
      CountFirst(draws, i, j - 1);
    }
  }

  // ---- registration codes -------------------------------------------------------------------

  /** dateCompact */
  function DateCompact(key: string): string
    requires |Split(key, '-')| == 3 && |Split(key, '-')[0]| >= 2
  {
    var parts := Split(key, '-');
    parts[0][2..] + parts[1] + parts[2]
  }

  /** slice(-4) */
  function LastFour(s: string): string {
    if |s| <= 4 then s else s[|s| - 4..]
  }

  /** The part of registrationCodePrefix before the date; the segments are normalised already. */
  function CodeOwner(location: string, config: string): string {
    (if location == "" then "LOC" else location) + (if LastFour(config) == "" then "UNIT" else LastFour(config))
  }

  /** Days whose year is written with four digits. */
  predicate CodeDay(day: nat) { day >= 1988 && CivilOf(day).year <= 9999 }

  function CodePrefix(location: string, config: string, day: nat): string
    requires CodeDay(day)
  {
    DayKeyParts(day);
    CodeOwner(location, config) + DateCompact(DayKey(day))
  }

  /** formatRegistrationCode */
  function Code(location: string, config: string, day: nat, number: nat): string
    requires CodeDay(day)
  {
    CodePrefix(location, config, day) + PadStart(Text(number), 3)
  }

  lemma DayKeyParts(day: nat)
    requires CodeDay(day)
    ensures ValidDate(CivilOf(day)) && 1975 <= CivilOf(day).year <= 9999
    ensures Split(DayKey(day), '-')
            == [Text(CivilOf(day).year), PadStart(Text(CivilOf(day).month), 2), PadStart(Text(CivilOf(day).day), 2)]
    ensures |Text(CivilOf(day).year)| == 4
  {
    hide *;
    CodeYear(day);
    CivilRoundTrip(day);
    KeyIs(day);
    KeyParts(CivilOf(day));
    FourDigits(CivilOf(day).year);
  }

  lemma CodeYear(day: nat)
    requires CodeDay(day)
    ensures day >= 1988 && 1975 <= CivilOf(day).year <= 9999
  {
    hide CivilOf;
    YearOfDay(day);
  }

  lemma LastTwoDigits(y: nat)
    ensures y % 100 == 10 * (y / 10 % 10) + y % 10 && y / 10 / 10 == y / 100
  {
  }

  lemma TextTail(y: nat)
    requires 1000 <= y <= 9999
    ensures |Text(y)| == 4 && Text(y)[2..] == [Digit(y / 10 % 10), Digit(y % 10)]
  {
    LastTwoDigits(y);
    TextWidth(y / 100, 2);
    TextWidth(y / 100, 1);
    assert Power10(2) == 10 * Power10(1) == 100 * Power10(0);
    assert Text(y) == Text(y / 10) + [Digit(y % 10)];
    assert Text(y / 10) == Text(y / 10 / 10) + [Digit(y / 10 % 10)];
    hide Text;
    assert Text(y) == Text(y / 100) + [Digit(y / 10 % 10), Digit(y % 10)];
  }

  lemma FourDigits(y: nat)
    requires 1000 <= y <= 9999
    ensures |Text(y)| == 4 && Value(Text(y)[2..]) == y % 100
  {
    TextTail(y);
    LastTwoDigits(y);
    hide Text;
    TwoDigitValue(y / 10 % 10, y % 10);
  }

  lemma TwoDigitValue(a: nat, b: nat)
    requires a < 10 && b < 10
    ensures Value([Digit(a), Digit(b)]) == 10 * a + b
  {
    ValueSnoc("", Digit(a));
    assert "" + [Digit(a)] == [Digit(a)];
    ValueSnoc([Digit(a)], Digit(b));
    assert [Digit(a)] + [Digit(b)] == [Digit(a), Digit(b)];
  }

  lemma TwoDigits(n: nat)
    requires n <= 99
    ensures |PadStart(Text(n), 2)| == 2
  {
    TextWidth(n, 2);
    assert Power10(2) == 10 * Power10(1) == 100 * Power10(0);
  }

  lemma CompactParts(day: nat)
    requires CodeDay(day)
    ensures
      var c := CivilOf(day);
      var compact := DateCompactOf(day);
      && |compact| == 6 && compact[..2] == Text(c.year)[2..]
      && compact[2..4] == PadStart(Text(c.month), 2) && compact[4..] == PadStart(Text(c.day), 2)
  {
    DayKeyParts(day);
    hide DayKey, CivilOf, Split, Text, PadStart;
    var c := CivilOf(day);
    LongEnough(c.year, c.month);
    TwoDigits(c.month);
    TwoDigits(c.day);
  }

  function DateCompactOf(day: nat): string
    requires CodeDay(day)
  {
    DayKeyParts(day);
    DateCompact(DayKey(day))
  }

  /** Two digits of the year and the date of the year are all a code keeps of its day. */
  predicate SameCodeDate(a: nat, b: nat) {
    CivilOf(a).year % 100 == CivilOf(b).year % 100 && CivilOf(a).month == CivilOf(b).month && CivilOf(a).day == CivilOf(b).day
  }

  lemma CompactDecides(a: nat, b: nat)
    requires CodeDay(a) && CodeDay(b)
    ensures DateCompactOf(a) == DateCompactOf(b) <==> SameCodeDate(a, b)
  {
    var x, y := CivilOf(a), CivilOf(b);
    CompactParts(a);
    CompactParts(b);
    DayKeyParts(a);
    DayKeyParts(b);
    hide CivilOf, DateCompactOf, DayKey, ValidDate;
    FourDigits(x.year);
    FourDigits(y.year);
    SixCharacters(DateCompactOf(a), DateCompactOf(b));
    if DateCompactOf(a) == DateCompactOf(b) {
      PaddedInjective(x.month, y.month, 2);
      PaddedInjective(x.day, y.day, 2);
    } else if x.year % 100 == y.year % 100 {
      SameTwoDigits(x.year, y.year);
    }
  }

  lemma SixCharacters(a: string, b: string)
    requires |a| == |b| == 6
    ensures a == b <==> a[..2] == b[..2] && a[2..4] == b[2..4] && a[4..] == b[4..]
  {
    assert a == a[..2] + a[2..4] + a[4..];
    assert b == b[..2] + b[2..4] + b[4..];
  }

  lemma SameTwoDigits(x: nat, y: nat)
    requires 1000 <= x <= 9999 && 1000 <= y <= 9999 && x % 100 == y % 100
    ensures |Text(x)| == |Text(y)| == 4 && Text(x)[2..] == Text(y)[2..]
  {
    TextTail(x);
    TextTail(y);
    LastTwoDigits(x);
    LastTwoDigits(y);
    hide Text;
  }

  lemma SamePrefix(p: string, a: string, b: string, s: string, t: string)
    requires |a| == |b|
    ensures p + a + s == p + b + t <==> a == b && s == t
  {
    if p + a + s == p + b + t {
      assert a == (p + a + s)[|p|..|p| + |a|] && b == (p + b + t)[|p|..|p| + |b|];
      assert s == (p + a + s)[|p| + |a|..] && t == (p + b + t)[|p| + |b|..];
    }
  }

  /** Codes of one unit config are equal exactly when the numbers are and the days agree in the last two digits of the
      year, the month and the day. */
  lemma CodesAreEqual(location: string, config: string, a: nat, m: nat, b: nat, n: nat)
    requires CodeDay(a) && CodeDay(b)
    ensures Code(location, config, a, m) == Code(location, config, b, n) <==> m == n && SameCodeDate(a, b)
  {
    CompactDecides(a, b);
    CompactLength(a);
    CompactLength(b);
    hide CivilOf, DateCompact, DayKey, CodeOwner, PadStart, SameCodeDate, Split;
    var s, t := PadStart(Text(m), 3), PadStart(Text(n), 3);
    SamePrefix(CodeOwner(location, config), DateCompactOf(a), DateCompactOf(b), s, t);
    if s == t {
      PaddedInjective(m, n, 3);
    }
  }

  lemma CompactLength(day: nat)
    requires CodeDay(day)
    ensures |DateCompactOf(day)| == 6
  {
    CompactParts(day);
  }

  /** Within a century the date is decided. */
  lemma SameDateInACentury(a: nat, b: nat)
    requires -100 < CivilOf(a).year - CivilOf(b).year < 100
    ensures SameCodeDate(a, b) <==> a == b
  {
    CivilRoundTrip(a);
    CivilRoundTrip(b);
    hide CivilOf, DayOf;
    if SameCodeDate(a, b) {
      assert CivilOf(a).year == CivilOf(b).year;
    }
  }

  /** Codes of two unit configs of one location are equal exactly when, besides number and date, the last four characters
      of the configs' ids are. */
  lemma CodesOfTwoConfigs(location: string, c: string, a: nat, m: nat, d: string, b: nat, n: nat)
    requires CodeDay(a) && CodeDay(b) && location != "" && |c| >= 4 && |d| >= 4
    ensures Code(location, c, a, m) == Code(location, d, b, n)
            <==> c[|c| - 4..] == d[|d| - 4..] && m == n && SameCodeDate(a, b)
  {
    hide *;
    CodesAreEqual(location, c, a, m, b, n);
    var x, y := c[|c| - 4..], d[|d| - 4..];
    CodeIs(location, c, a, m);
    CodeIs(location, c, b, n);
    CodeIs(location, d, b, n);
    SamePrefix(location, x, y, CodeTail(a, m), CodeTail(b, n));
  }

  /** What follows the config in a code. */
  function CodeTail(day: nat, number: nat): string
    requires CodeDay(day)
  {
    DateCompactOf(day) + PadStart(Text(number), 3)
  }

  lemma CodeIs(location: string, config: string, day: nat, number: nat)
    requires CodeDay(day) && location != "" && |config| >= 4
    ensures Code(location, config, day, number) == location + config[|config| - 4..] + CodeTail(day, number)
  {
    hide CodeDay, DateCompact, DayKey, PadStart, Text;
    var owner, date, suffix := CodeOwner(location, config), DateCompactOf(day), PadStart(Text(number), 3);
    assert owner == location + config[|config| - 4..];
    assert Code(location, config, day, number) == (owner + date) + suffix;
    assert (owner + date) + suffix == owner + (date + suffix);
  }

  datatype CodeKey = CodeKey(day: nat, config: string)

  /** Codes issued to one unit config in the days of a century are pairwise distinct: no run of reservations, whatever
      rows come and go in between, repeats one. */
  lemma CodesAreUnique(next: map<CodeKey, nat>, draws: seq<Draw<CodeKey>>, i: nat, j: nat, location: string)
    requires i < j < |draws| && draws[i].key.config == draws[j].key.config
    requires CodeDay(draws[i].key.day) && CodeDay(draws[j].key.day)
    requires -100 < CivilOf(draws[i].key.day).year - CivilOf(draws[j].key.day).year < 100
    ensures Code(location, draws[i].key.config, draws[i].key.day, NumberAt(next, draws, i))
            != Code(location, draws[j].key.config, draws[j].key.day, NumberAt(next, draws, j))
  {
    var a, b := draws[i].key, draws[j].key;
    CodesAreEqual(location, a.config, a.day, NumberAt(next, draws, i), b.day, NumberAt(next, draws, j));
    SameDateInACentury(a.day, b.day);
    if a.day == b.day {
      NumbersAreConsecutive(next, draws, i, j);
    }
  }

  /** The century is needed: a hundred years later the same number gives the same code. */
  lemma CodesRepeatAfterACentury(location: string, config: string, a: nat, b: nat, n: nat)
    requires CodeDay(a) && CodeDay(b)
    requires CivilOf(b) == CivilOf(a).(year := CivilOf(a).year + 100)
    ensures a != b && Code(location, config, a, n) == Code(location, config, b, n)
  {
    CodesAreEqual(location, config, a, n, b, n);
    hide CivilOf;
  }

  // ---- the numbers of existing codes --------------------------------------------------------

  /** The number of a code with this prefix, None where Number gives NaN. */
  function CodeNumber(code: string, prefix: string): Option<nat>
    requires prefix <= code
  {
    Number(code[|prefix|..])
  }

  /** Stripping the prefix and reading the suffix returns the number, also above 999. */
  lemma CodeNumberRoundTrip(location: string, config: string, day: nat, number: nat)
    requires CodeDay(day)
    ensures
      var prefix := CodePrefix(location, config, day);
      prefix <= Code(location, config, day, number)
      && CodeNumber(Code(location, config, day, number), prefix) == Some(number)
  {
    hide CodePrefix, CodeDay;
    PaddedRoundTrip(number, 3);
    var prefix := CodePrefix(location, config, day);
    assert (prefix + PadStart(Text(number), 3))[|prefix|..] == PadStart(Text(number), 3);
  }

  /** getExistingMaxRegistrationNumber over the codes it finds. */
  method ExistingMaxNumber(codes: seq<string>, prefix: string) returns (max: nat)
    requires forall i :: 0 <= i < |codes| ==> prefix <= codes[i]
    ensures forall i :: 0 <= i < |codes| ==> CodeNumber(codes[i], prefix).Some? ==> CodeNumber(codes[i], prefix).value <= max
    ensures max == 0 || exists i :: 0 <= i < |codes| && CodeNumber(codes[i], prefix) == Some(max)
  {
    max := 0;
    for k := 0 to |codes|
      invariant forall i :: 0 <= i < k ==> CodeNumber(codes[i], prefix).Some? ==> CodeNumber(codes[i], prefix).value <= max
      invariant max == 0 || exists i :: 0 <= i < k && CodeNumber(codes[i], prefix) == Some(max)
    {
      var parsed := CodeNumber(codes[k], prefix);
      if parsed.Some? && parsed.value > max {
        max := parsed.value;
      }
    }
  }

  /** The first code of a day differs from every code the day's rows already carry. */
  lemma FirstCodeIsNew(location: string, config: string, day: nat, existing: string, max: nat, next: map<CodeKey, nat>)
    requires CodeDay(day) && CodeKey(day, config) !in next
    requires CodePrefix(location, config, day) <= existing
    requires var n := CodeNumber(existing, CodePrefix(location, config, day)); n.Some? ==> n.value <= max
    ensures Code(location, config, day, Issued(next, CodeKey(day, config), max)) != existing
  {
    CodeNumberRoundTrip(location, config, day, max + 1);
  }

  // ---- tickets ------------------------------------------------------------------------------

  /** ticketDate, receivingUnit and vehicleType */
  datatype TicketKey = TicketKey(day: int, unit: UnitCode, vehicle: Vehicle)
  datatype Ticket = Ticket(key: TicketKey, number: nat)

  /** Tickets of the rows and the stored counters. */
  datatype Desk = Desk(tickets: map<DeliveryId, Ticket>, next: map<TicketKey, nat>)

  function Numbers(desk: Desk, key: TicketKey): set<nat> {
    set d | d in desk.tickets && desk.tickets[d].key == key :: desk.tickets[d].number
  }

  /** getExistingMaxTicketNumber */
  ghost predicate IsExistingMax(desk: Desk, key: TicketKey, max: nat) {
    (forall n :: n in Numbers(desk, key) ==> n <= max) && (max in Numbers(desk, key) || (max == 0 && Numbers(desk, key) == {}))
  }

  datatype DeskStep = CheckIn(id: DeliveryId, key: TicketKey, max: nat) | Remove(id: DeliveryId)

  /** A check-in gives a row without a ticket its number; closing and archiving remove rows. */
  ghost predicate DeskNext(desk: Desk, step: DeskStep, after: Desk) {
    match step
    case CheckIn(id, key, max) =>
      && id !in desk.tickets && IsExistingMax(desk, key, max)
      && after.tickets == desk.tickets[id := Ticket(key, Issued(desk.next, key, max))]
      && after.next == desk.next[key := Issued(desk.next, key, max) + 1]
    case Remove(id) => after == desk.(tickets := desk.tickets - {id})
  }

  /** Counters are above the tickets of their key, and tickets of a key differ. */
  ghost predicate DeskOk(desk: Desk) {
    && (forall d :: d in desk.tickets && desk.tickets[d].key in desk.next ==> desk.tickets[d].number < desk.next[desk.tickets[d].key])
    && (forall a, b :: a in desk.tickets && b in desk.tickets && desk.tickets[a] == desk.tickets[b] ==> a == b)
  }

  lemma DeskStepKeepsOk(desk: Desk, step: DeskStep, after: Desk)
    requires DeskOk(desk) && DeskNext(desk, step, after)
    ensures DeskOk(after)
    ensures forall k :: k in desk.next ==> k in after.next && desk.next[k] <= after.next[k]
  {
    if step.CheckIn? {
      var n := Issued(desk.next, step.key, step.max);
      forall d | d in desk.tickets && desk.tickets[d].key == step.key ensures desk.tickets[d].number < n {
        assert desk.tickets[d].number in Numbers(desk, step.key);
      }
    }
  }

  ghost predicate IsDeskRun(states: seq<Desk>, steps: seq<DeskStep>) {
    |states| == |steps| + 1 && forall i :: 0 <= i < |steps| ==> DeskNext(states[i], steps[i], states[i + 1])
  }

  lemma {:induction false} DeskRunKeepsOk(states: seq<Desk>, steps: seq<DeskStep>, i: nat, j: nat)
    requires IsDeskRun(states, steps) && DeskOk(states[0]) && i <= j <= |steps|
    ensures DeskOk(states[i]) && DeskOk(states[j])
    ensures forall k :: k in states[i].next ==> k in states[j].next && states[i].next[k] <= states[j].next[k]
    decreases j
  {
    if i < j {
      DeskRunKeepsOk(states, steps, i, j - 1);
      DeskStepKeepsOk(states[j - 1], steps[j - 1], states[j]);
    } else if j > 0 {
      DeskRunKeepsOk(states, steps, j - 1, j - 1);
      DeskStepKeepsOk(states[j - 1], steps[j - 1], states[j]);
    }
  }

  /** Tickets per day, unit and vehicle are never reused: a later check-in gets a higher number, whatever rows were
      removed in between, and no two rows of any state hold the same ticket. */
  lemma TicketsAreNeverReused(states: seq<Desk>, steps: seq<DeskStep>, i: nat, j: nat)
    requires IsDeskRun(states, steps) && DeskOk(states[0]) && i < j < |steps|
    requires steps[i].CheckIn? && steps[j].CheckIn? && steps[i].key == steps[j].key
    ensures Issued(states[i].next, steps[i].key, steps[i].max) < Issued(states[j].next, steps[j].key, steps[j].max)
    ensures
      var tickets := states[j + 1].tickets;
      forall a, b :: a in tickets && b in tickets && tickets[a].key == tickets[b].key && tickets[a].number == tickets[b].number ==> a == b
  {
    assert DeskNext(states[i], steps[i], states[i + 1]);
    DeskRunKeepsOk(states, steps, i + 1, j);
    DeskRunKeepsOk(states, steps, j, j + 1);
  }

  /** The ticket after this one, with no other check-in of the key in between, is the next number. */
  lemma TicketsAreConsecutive(states: seq<Desk>, steps: seq<DeskStep>, i: nat, j: nat)
    requires IsDeskRun(states, steps) && i < j < |steps|
    requires steps[i].CheckIn? && steps[j].CheckIn? && steps[i].key == steps[j].key
    requires forall k :: i < k < j ==> steps[k].CheckIn? ==> steps[k].key != steps[i].key
    ensures Issued(states[j].next, steps[j].key, steps[j].max) == Issued(states[i].next, steps[i].key, steps[i].max) + 1
  {
    assert DeskNext(states[i], steps[i], states[i + 1]);
    CounterWaits(states, steps, i + 1, j, steps[i].key);
  }

  lemma {:induction false} CounterWaits(states: seq<Desk>, steps: seq<DeskStep>, lo: nat, hi: nat, key: TicketKey)
    requires IsDeskRun(states, steps) && lo <= hi <= |steps| && key in states[lo].next
    requires forall k :: lo <= k < hi ==> steps[k].CheckIn? ==> steps[k].key != key
    ensures key in states[hi].next && states[hi].next[key] == states[lo].next[key]
    decreases hi
  {
    if lo < hi {
      CounterWaits(states, steps, lo, hi - 1, key);
      assert DeskNext(states[hi - 1], steps[hi - 1], states[hi]);
    }
  }

  /** The query always has an answer, so that a row without a ticket can check in. */
  lemma CheckInIsPossible(desk: Desk, id: DeliveryId, key: TicketKey) returns (max: nat, after: Desk)
    requires id !in desk.tickets
    ensures DeskNext(desk, CheckIn(id, key, max), after)
  {
    max := Largest(Numbers(desk, key));
    var n := Issued(desk.next, key, max);
    after := Desk(desk.tickets[id := Ticket(key, n)], desk.next[key := n + 1]);
  }

  lemma {:induction false} Largest(numbers: set<nat>) returns (max: nat)
    ensures (forall n :: n in numbers ==> n <= max) && (max in numbers || (max == 0 && numbers == {}))
  {
    max := 0;
    if numbers != {} {
      var n :| n in numbers;
      var rest := Largest(numbers - {n});
      max := if n > rest then n else rest;
      assert forall k :: k in numbers ==> k == n || k in numbers - {n};
    }
  }

  /** The first ticket of a key is one above the largest of its rows, and 1 when no row has one. */
  lemma FirstTicket(desk: Desk, step: DeskStep, after: Desk)
    requires DeskNext(desk, step, after) && step.CheckIn? && step.key !in desk.next
    ensures after.tickets[step.id].number == step.max + 1 && after.tickets[step.id].number !in Numbers(desk, step.key)
    ensures forall d :: d in desk.tickets && desk.tickets[d].key == step.key ==> desk.tickets[d].number <= step.max
    ensures
      || (exists d :: d in desk.tickets && desk.tickets[d].key == step.key && desk.tickets[d].number == step.max)
      || (step.max == 0 && forall d :: d in desk.tickets ==> desk.tickets[d].key != step.key)
    ensures after.tickets[step.id].number == 1 <==> Numbers(desk, step.key) <= {0}
  {
    forall d | d in desk.tickets && desk.tickets[d].key == step.key ensures desk.tickets[d].number in Numbers(desk, step.key) {}
  }
}
