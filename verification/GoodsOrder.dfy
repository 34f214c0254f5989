/** The order in which a slot considers goods, as the dispatcher and the slot editor each compute it. */
module GoodsOrder {
  import opened Types

  const DEFAULT_GOODS_PRIORITY: seq<Goods> := [FreshFood, GeneralGoods, ThiCong, AutoWarehouse]

  function Filter(s: seq<Goods>, keep: set<Goods>): (r: seq<Goods>)
    ensures forall g :: g in r <==> g in s && g in keep
  {
    if s == [] then [] else (if s[0] in keep then [s[0]] else []) + Filter(s[1..], keep)
  }

  function Drop(s: seq<Goods>, drop: set<Goods>): (r: seq<Goods>)
    ensures forall g :: g in r <==> g in s && g !in drop
  {
    if s == [] then [] else (if s[0] in drop then [] else [s[0]]) + Drop(s[1..], drop)
  }

  /** [...new Set(s)]: first occurrences, in order. */
  function Distinct(s: seq<Goods>): (r: seq<Goods>)
    decreases |s|
    ensures forall g :: g in r <==> g in s
  {
    if s == [] then []
    else
      var front := Distinct(s[..|s| - 1]);
      var last := s[|s| - 1];
      assert s == s[..|s| - 1] + [last];
      if last in front then front else front + [last]
  }

  predicate NoDuplicates(s: seq<Goods>) {
    forall i, j :: 0 <= i < j < |s| ==> s[i] != s[j]
  }

  function Elements(s: seq<Goods>): set<Goods> {
    set g | g in s
  }

  /** acceptedGoods, or all goods when none are listed. */
  function Allowed(slot: Slot): seq<Goods> {
    if slot.acceptedGoods != [] then slot.acceptedGoods else DEFAULT_GOODS_PRIORITY
  }

  /** candidateGoodsForSlot of the dispatcher. */
  function CandidateGoods(slot: Slot): (r: seq<Goods>)
    ensures forall g :: g in r <==> g in Allowed(slot)
  {
    var allowed := Allowed(slot);
    Distinct(Filter(slot.goodsPriority, Elements(allowed)) + Drop(allowed, Elements(slot.goodsPriority)))
  }

  /** The editor's own list. */
  const SLOT_GOODS: seq<Goods> := [FreshFood, GeneralGoods, ThiCong, AutoWarehouse]

  /** slotGoodsPriority of the slot editor. */
  function SlotGoodsPriority(slot: Slot): seq<Goods> {
    var accepted := if slot.acceptedGoods != [] then slot.acceptedGoods else SLOT_GOODS;
    var allowed := Filter(accepted, Elements(SLOT_GOODS));
    var priority := Filter(slot.goodsPriority, Elements(allowed));
    Distinct(priority + allowed)
  }

  /** Position of the first occurrence. */
  function Rank(order: seq<Goods>, g: Goods): (r: nat)
    requires g in order
    ensures r < |order| && order[r] == g && forall i :: 0 <= i < r ==> order[i] != g
  {
    if order[0] == g then 0 else 1 + Rank(order[1..], g)
  }

  lemma {:induction false} DistinctHasNoDuplicates(s: seq<Goods>)
    ensures NoDuplicates(Distinct(s))
    decreases |s|
  {
    if s != [] {
      DistinctHasNoDuplicates(s[..|s| - 1]);
    }
  }

  lemma {:induction false} DistinctIdentity(s: seq<Goods>)
    requires NoDuplicates(s)
    ensures Distinct(s) == s
    decreases |s|
  {
    if s != [] {
      DistinctIdentity(s[..|s| - 1]);
      assert s == s[..|s| - 1] + [s[|s| - 1]];
    }
  }

  lemma DistinctSnoc(s: seq<Goods>, g: Goods)
    ensures Distinct(s + [g]) == if g in s then Distinct(s) else Distinct(s) + [g]
  {
    assert (s + [g])[..|s + [g]| - 1] == s;
  }

  /** Appending elements that are already present, or dropping them first, gives the same set order. */
  lemma {:induction false} DistinctSkips(a: seq<Goods>, b: seq<Goods>, present: set<Goods>)
    requires forall g :: g in present && g in b ==> g in a
    ensures Distinct(a + b) == Distinct(a + Drop(b, present))
    decreases |b|
  {
    if b == [] {
      assert a + b == a + Drop(b, present);
    } else {
      hide Drop, Distinct;
      var front, last := b[..|b| - 1], b[|b| - 1];
      assert b == front + [last];
      DistinctSkips(a, front, present);
      SkipOne(a, front, last, present);
    }
  }

  lemma SkipOne(a: seq<Goods>, front: seq<Goods>, last: Goods, present: set<Goods>)
    requires last in present ==> last in a
    requires Distinct(a + front) == Distinct(a + Drop(front, present))
    ensures Distinct(a + (front + [last])) == Distinct(a + Drop(front + [last], present))
  {
    hide Distinct;
    DropSplit(front, last, present);
    assert a + (front + [last]) == (a + front) + [last];
    DistinctSnoc(a + front, last);
    if last in present {
      assert a + Drop(front + [last], present) == a + Drop(front, present);
    } else {
      assert a + Drop(front + [last], present) == (a + Drop(front, present)) + [last];
      DistinctSnoc(a + Drop(front, present), last);
    }
  }

  lemma {:induction false} DropSplit(s: seq<Goods>, g: Goods, drop: set<Goods>)
    ensures Drop(s + [g], drop) == Drop(s, drop) + (if g in drop then [] else [g])
    decreases |s|
  {
    if s != [] {
      assert (s + [g])[1..] == s[1..] + [g];
      DropSplit(s[1..], g, drop);
    }
  }

  lemma {:induction false} FilterAll(s: seq<Goods>, keep: set<Goods>)
    requires forall g :: g in s ==> g in keep
    ensures Filter(s, keep) == s
    decreases |s|
  {
    if s != [] {
      FilterAll(s[1..], keep);
      assert s == [s[0]] + s[1..];
    }
  }

  /** The dispatcher's order is a duplicate-free arrangement of exactly the accepted goods. */
  lemma CandidateGoodsArrangeAllowed(slot: Slot)
    ensures NoDuplicates(CandidateGoods(slot))
    ensures Elements(CandidateGoods(slot)) == Elements(Allowed(slot))
  {
    DistinctHasNoDuplicates(Filter(slot.goodsPriority, Elements(Allowed(slot))) + Drop(Allowed(slot), Elements(slot.goodsPriority)));
  }

  /** The two implementations agree on every slot configuration. */
  lemma EditorAgreesWithDispatcher(slot: Slot)
    ensures SlotGoodsPriority(slot) == CandidateGoods(slot)
  {
    assert SLOT_GOODS == DEFAULT_GOODS_PRIORITY;
    var allowed := Allowed(slot);
    forall g: Goods ensures g in Elements(DEFAULT_GOODS_PRIORITY) {
      assert g == DEFAULT_GOODS_PRIORITY[0] || g == DEFAULT_GOODS_PRIORITY[1] || g == DEFAULT_GOODS_PRIORITY[2] || g == DEFAULT_GOODS_PRIORITY[3];
    }
    FilterAll(allowed, Elements(DEFAULT_GOODS_PRIORITY));
    DistinctSkips(Filter(slot.goodsPriority, Elements(allowed)), allowed, Elements(slot.goodsPriority));
  }

  /** Every listed priority comes before every accepted kind that is not listed, and listed kinds
      keep the order of their first mention. */
  lemma ListedGoodsFirst(slot: Slot, g: Goods, h: Goods)
    requires g in Allowed(slot) && h in Allowed(slot) && g in slot.goodsPriority && g != h
    requires h !in slot.goodsPriority || Rank(slot.goodsPriority, g) < Rank(slot.goodsPriority, h)
    ensures g in CandidateGoods(slot) && h in CandidateGoods(slot)
    ensures Rank(CandidateGoods(slot), g) < Rank(CandidateGoods(slot), h)
  {
    var allowed := Allowed(slot);
    CandidateGoodsArrangeAllowed(slot);
    assert g in Elements(CandidateGoods(slot)) && h in Elements(CandidateGoods(slot));
    var listed := Filter(slot.goodsPriority, Elements(allowed));
    var rest := Drop(allowed, Elements(slot.goodsPriority));
    if h in slot.goodsPriority {
      FilterKeepsOrder(slot.goodsPriority, Elements(allowed), g, h);
    }
    RankInConcat(listed, rest, g);
    RankInConcat(listed, rest, h);
    DistinctKeepsOrder(listed + rest, g, h);
  }

  lemma {:induction false} FilterKeepsOrder(s: seq<Goods>, keep: set<Goods>, g: Goods, h: Goods)
    requires g in s && h in s && g in keep && h in keep && Rank(s, g) < Rank(s, h)
    ensures Rank(Filter(s, keep), g) < Rank(Filter(s, keep), h)
    decreases |s|
  {
    var tail := Filter(s[1..], keep);
    assert s[0] != h;
    if s[0] == g {
      assert Filter(s, keep)[0] == g;
    } else {
      FilterKeepsOrder(s[1..], keep, g, h);
      if s[0] in keep {
        RankInConcat([s[0]], tail, g);
        RankInConcat([s[0]], tail, h);
      } else {
        assert Filter(s, keep) == tail;
      }
    }
  }

  lemma {:induction false} RankInConcat(a: seq<Goods>, b: seq<Goods>, g: Goods)
    requires g in a + b
    ensures g in a ==> Rank(a + b, g) == Rank(a, g)
    ensures g !in a ==> g in b && Rank(a + b, g) == |a| + Rank(b, g)
  {
    var r := Rank(a + b, g);
    if g in a {
      assert (a + b)[Rank(a, g)] == g;
      assert (a + b)[r] == g;
      assert forall i :: 0 <= i < Rank(a, g) ==> (a + b)[i] == a[i];
    } else {
      assert forall i :: 0 <= i < |b| ==> (a + b)[|a| + i] == b[i];
      assert forall i :: 0 <= i < |a| ==> (a + b)[i] == a[i];
      assert r >= |a|;
      assert b[r - |a|] == g;
    }
  }

  lemma {:induction false} DistinctKeepsOrder(s: seq<Goods>, g: Goods, h: Goods)
    requires g in s && h in s && Rank(s, g) < Rank(s, h)
    ensures Rank(Distinct(s), g) < Rank(Distinct(s), h)
    decreases |s|
  {
    var front, last := s[..|s| - 1], s[|s| - 1];
    assert s == front + [last];
    RankInConcat(front, [last], g);
    RankInConcat(front, [last], h);
    if h in front {
      DistinctKeepsOrder(front, g, h);
      RankInConcat(Distinct(front), [last], g);
      RankInConcat(Distinct(front), [last], h);
    } else {
      assert h == last && h !in Distinct(front);
      RankInConcat(Distinct(front), [last], g);
      RankInConcat(Distinct(front), [last], h);
    }
  }

  /** Without priorities a slot takes what it accepts in the order listed. */
  lemma PlainOrder(slot: Slot)
    requires slot.goodsPriority == [] && NoDuplicates(Allowed(slot))
    ensures CandidateGoods(slot) == Allowed(slot)
  {
    var all := Allowed(slot);
    DistinctIdentity(all);
    DropNothing(all);
    assert Elements([]) == {};
    assert [] + all == all;
    hide Allowed, Distinct, Drop;
  }

  /** A slot that lists neither accepted goods nor priorities takes everything: fresh food first, then general goods, site
      works and auto-warehouse goods. */
  lemma DefaultOrder(slot: Slot)
    requires slot.acceptedGoods == [] && slot.goodsPriority == []
    ensures CandidateGoods(slot) == [FreshFood, GeneralGoods, ThiCong, AutoWarehouse]
  {
    var all := Allowed(slot);
    assert all == [FreshFood, GeneralGoods, ThiCong, AutoWarehouse];
    assert NoDuplicates(all);
    hide CandidateGoods, Allowed;
    PlainOrder(slot);
  }

  lemma {:induction false} DropNothing(s: seq<Goods>)
    ensures Drop(s, {}) == s
  {
    if s != [] {
      DropNothing(s[1..]);
    }
  }
}
