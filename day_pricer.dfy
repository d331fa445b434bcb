/** The day pricer `getPriceByFood` (handler.ts, lines 770-839): the cost
    of what one person ate in one slot of one day, under the first matching
    price rule. */
module DayPricer {
  import opened Js
  import opened Seqs
  import opened Types

  // ---------------------------------------------------------------------
  // Head counts per tier

  /** The term `sf.base === c ? sf.count : 0` of the per-tier `reduce`. */
  function BaseTerm(c: Category): SpecialFood -> int {
    (sf: SpecialFood) => if sf.base == c then sf.count else 0
  }

  function HasBase(c: Category): SpecialFood -> bool {
    (sf: SpecialFood) => sf.base == c
  }

  function CountOf(sf: SpecialFood): int {
    sf.count
  }

  /** `items && items.length ? items.reduce((acc, sf) => acc + (sf.base === c ? sf.count : 0), 0) : 0` */
  function SpecialsOfBase(items: seq<SpecialFood>, c: Category): int {
    if |items| > 0 then ReduceSum(items, BaseTerm(c), 0) else 0
  }

  /** `amounts.normal`, `amounts.young`, `amounts.child`: the direct count
      plus the special meals, plain and chosen from a profile, of that tier. */
  function TierCount(f: Food, c: Category): int {
    OrZero(DirectCount(f, c)) + SpecialsOfBase(f.special, c) + SpecialsOfBase(Untagged(f.specialIds), c)
  }

  /** All special meals of a record, plain ones first. */
  function SpecialItems(f: Food): seq<SpecialFood> {
    f.special + Untagged(f.specialIds)
  }

  lemma SpecialsOfBaseIsSum(items: seq<SpecialFood>, c: Category)
    ensures SpecialsOfBase(items, c) == Sum(Filter(items, HasBase(c)), CountOf)
  {
    ReduceIsSum(items, BaseTerm(c), 0);
    SumOfFilter(items, HasBase(c), CountOf, BaseTerm(c));
  }

  /** A tier's count is its direct count (0 when absent) plus the counts of
      exactly those special meals whose base is that tier. */
  lemma TierCountIsSum(f: Food, c: Category)
    ensures TierCount(f, c) == OrZero(DirectCount(f, c)) + Sum(Filter(SpecialItems(f), HasBase(c)), CountOf)
  {
    SpecialsOfBaseIsSum(f.special, c);
    SpecialsOfBaseIsSum(Untagged(f.specialIds), c);
    FilterAppend(f.special, Untagged(f.specialIds), HasBase(c));
    SumAppend(Filter(f.special, HasBase(c)), Filter(Untagged(f.specialIds), HasBase(c)), CountOf);
  }

  /** Adding a plain special meal anywhere adds its count to its own tier
      and nothing to the others. */
  lemma AddSpecial(f: Food, sf: SpecialFood, k: int, c: Category)
    requires 0 <= k <= |f.special|
    ensures TierCount(f.(special := f.special[..k] + [sf] + f.special[k..]), c)
         == TierCount(f, c) + (if sf.base == c then sf.count else 0)
  {
    var s := f.special[..k] + [sf] + f.special[k..];
    ReduceIsSum(s, BaseTerm(c), 0);
    ReduceIsSum(f.special, BaseTerm(c), 0);
    SumAppend(f.special[..k] + [sf], f.special[k..], BaseTerm(c));
    SumAppend(f.special[..k], [sf], BaseTerm(c));
    SumAppend(f.special[..k], f.special[k..], BaseTerm(c));
    assert f.special[..k] + f.special[k..] == f.special;
  }

  /** Adding a special meal chosen from a profile anywhere adds its count
      to its own tier and nothing to the others. */
  lemma AddSpecialWithId(f: Food, sf: SpecialFoodWithId, k: int, c: Category)
    requires 0 <= k <= |f.specialIds|
    ensures TierCount(f.(specialIds := f.specialIds[..k] + [sf] + f.specialIds[k..]), c)
         == TierCount(f, c) + (if sf.base == c then sf.count else 0)
  {
    var ids := f.specialIds[..k] + [sf] + f.specialIds[k..];
    var u, u0 := Untagged(ids), Untagged(f.specialIds);
    assert u == u0[..k] + [SpecialFood(sf.base, sf.count, sf.allergies)] + u0[k..];
    ReduceIsSum(u, BaseTerm(c), 0);
    ReduceIsSum(u0, BaseTerm(c), 0);
    SumAppend(u0[..k] + [SpecialFood(sf.base, sf.count, sf.allergies)], u0[k..], BaseTerm(c));
    SumAppend(u0[..k], [SpecialFood(sf.base, sf.count, sf.allergies)], BaseTerm(c));
    SumAppend(u0[..k], u0[k..], BaseTerm(c));
    assert u0[..k] + u0[k..] == u0;
  }

  // ---------------------------------------------------------------------
  // Choosing the price rule

  /** The date string compared against the rules: `${year}-MM-DD` with the
      0-based `month` printed as `month + 1`. */
  function Today(year: int, month: int, day: int): string {
    IntToString(year) + "-" + Pad2(month + 1) + "-" + Pad2(day)
  }

  /** Within one month, the date strings of days 0..99 compare like the days,
      so the string tests against the rules' `start` and `end` are date tests. */
  lemma TodayOrdered(year: int, month: int, d1: int, d2: int)
    requires 0 <= d1 < d2 < 100
    ensures Lt(Today(year, month, d1), Today(year, month, d2))
    ensures !Lt(Today(year, month, d2), Today(year, month, d1))
  {
    var prefix := IntToString(year) + "-" + Pad2(month + 1) + "-";
    assert Today(year, month, d1) == prefix + Pad2(d1) && Today(year, month, d2) == prefix + Pad2(d2);
    Pad2Ordered(d1, d2);
    LtCommonPrefix(prefix, Pad2(d1), Pad2(d2));
    LtTrichotomy(Today(year, month, d1), Today(year, month, d2));
  }

  /** `p.start <= today && p.end >= today && p.fod === fod` */
  predicate IsCandidate(p: Price, today: string, fod: Slot) {
    Le(p.start, today) && !Lt(p.end, today) && p.fod == fod
  }

  function CandidateTest(today: string, fod: Slot): Price -> bool {
    (p: Price) => IsCandidate(p, today, fod)
  }

  predicate IsSpecialRule(p: Price) {
    p.special
  }

  function SpecialCandidateTest(today: string, fod: Slot): Price -> bool {
    (p: Price) => IsCandidate(p, today, fod) && p.special
  }

  /** `rightPrice`: among the candidates, the first special rule if any
      candidate is special, otherwise the first candidate; `None` stands
      for the `undefined` of an empty list. */
  function RightPrice(prices: seq<Price>, today: string, fod: Slot): (r: Option<Price>)
    ensures r.Some? ==> r.value in prices && IsCandidate(r.value, today, fod)
    ensures r.None? ==> Filter(prices, CandidateTest(today, fod)) == []
  {
    var rPrices := Filter(prices, CandidateTest(today, fod));
    if exists i :: 0 <= i < |rPrices| && rPrices[i].special then
      var specials := Filter(rPrices, IsSpecialRule);
      var i :| 0 <= i < |rPrices| && rPrices[i].special;
      FilterMembership(rPrices, IsSpecialRule, rPrices[i]);
      FilterMembership(rPrices, IsSpecialRule, specials[0]);
      FilterMembership(prices, CandidateTest(today, fod), specials[0]);
      Some(specials[0])
    else if |rPrices| > 0 then
      FilterMembership(prices, CandidateTest(today, fod), rPrices[0]);
      Some(rPrices[0])
    else None
  }

  /** The rule at index `i` is the one the source means to pick: a candidate;
      if it is special, no earlier candidate is special; if it is not, no
      candidate at all is special and no earlier rule is a candidate. */
  ghost predicate IsRightChoice(prices: seq<Price>, today: string, fod: Slot, i: int) {
    && 0 <= i < |prices|
    && IsCandidate(prices[i], today, fod)
    && if prices[i].special then
         forall j :: 0 <= j < i && IsCandidate(prices[j], today, fod) ==> !prices[j].special
       else
         && (forall j :: 0 <= j < |prices| && IsCandidate(prices[j], today, fod) ==> !prices[j].special)
         && (forall j :: 0 <= j < i ==> !IsCandidate(prices[j], today, fod))
  }

  /** `RightPrice` picks exactly the right choice, and nothing when no rule
      is a candidate. */
  lemma RightPriceIsRightChoice(prices: seq<Price>, today: string, fod: Slot)
    ensures RightPrice(prices, today, fod).None?
        <==> forall j :: 0 <= j < |prices| ==> !IsCandidate(prices[j], today, fod)
    ensures forall i :: IsRightChoice(prices, today, fod, i) ==> RightPrice(prices, today, fod) == Some(prices[i])
    ensures RightPrice(prices, today, fod).Some? ==>
      exists i :: IsRightChoice(prices, today, fod, i) && RightPrice(prices, today, fod) == Some(prices[i])
  {
    var ct, sct := CandidateTest(today, fod), SpecialCandidateTest(today, fod);
    var rPrices := Filter(prices, ct);
    forall j | 0 <= j < |prices| && IsCandidate(prices[j], today, fod)
      ensures prices[j] in rPrices
    {
      FilterMembership(prices, ct, prices[j]);
    }
    FilterConjunction(prices, ct, IsSpecialRule, sct);
    var anySpecial := exists i :: 0 <= i < |rPrices| && rPrices[i].special;
    if anySpecial {
      var k :| 0 <= k < |rPrices| && rPrices[k].special;
      FilterMembership(rPrices, IsSpecialRule, rPrices[k]);
      var i := FilterHeadIndex(prices, sct);
      assert IsRightChoice(prices, today, fod, i);
      forall i' | IsRightChoice(prices, today, fod, i')
        ensures RightPrice(prices, today, fod) == Some(prices[i'])
      {
        FilterMembership(prices, ct, rPrices[k]);
        if prices[i'].special {
          FilterHead(prices, sct, i');
        } else {
          assert false;
        }
      }
    } else if |rPrices| > 0 {
      var i := FilterHeadIndex(prices, ct);
      assert !prices[i].special;
      assert IsRightChoice(prices, today, fod, i);
      forall i' | IsRightChoice(prices, today, fod, i')
        ensures RightPrice(prices, today, fod) == Some(prices[i'])
      {
        if prices[i'].special {
          assert false;
        } else {
          FilterHead(prices, ct, i');
        }
      }
    } else {
      forall j | 0 <= j < |prices|
        ensures !IsCandidate(prices[j], today, fod)
      {
        FilterMembership(prices, ct, prices[j]);
      }
    }
  }

  /** A special rule in effect always overrides the ordinary ones. */
  lemma SpecialOverrides(prices: seq<Price>, today: string, fod: Slot, k: int)
    requires 0 <= k < |prices| && IsCandidate(prices[k], today, fod) && prices[k].special
    ensures RightPrice(prices, today, fod).Some?
    ensures RightPrice(prices, today, fod).value.special
  {
    RightPriceIsRightChoice(prices, today, fod);
    var i :| IsRightChoice(prices, today, fod, i) && RightPrice(prices, today, fod) == Some(prices[i]);
  }

  // ---------------------------------------------------------------------
  // The cost

  /** `getPriceByFood(food, day, fod)` inside the month update of `year`
      and 0-based `month`, against the month's rules `relPrices`. */
  function PriceByFood(f: Food, year: int, month: int, day: int, fod: Slot, relPrices: seq<Price>): int {
    match RightPrice(relPrices, Today(year, month, day), fod)
    case Some(r) => TierCount(f, Normal) * r.normal + TierCount(f, Young) * r.young + TierCount(f, Child) * r.child
    case None => 0
  }

  /** A record without any meal costs nothing, whatever the rules. */
  lemma EmptyFoodIsFree(f: Food, year: int, month: int, day: int, fod: Slot, relPrices: seq<Price>)
    requires f.special == [] && f.specialIds == []
    requires OrZero(f.normal) == 0 && OrZero(f.young) == 0 && OrZero(f.child) == 0
    ensures PriceByFood(f, year, month, day, fod, relPrices) == 0
  {
  }

  /** With no rule in effect the cost is 0; with the rule the source
      chooses, it is the head counts weighted by that rule's prices. */
  lemma PriceByFoodCharged(f: Food, year: int, month: int, day: int, fod: Slot, relPrices: seq<Price>)
    ensures (forall j :: 0 <= j < |relPrices| ==> !IsCandidate(relPrices[j], Today(year, month, day), fod))
        ==> PriceByFood(f, year, month, day, fod, relPrices) == 0
    ensures forall i :: IsRightChoice(relPrices, Today(year, month, day), fod, i) ==>
      PriceByFood(f, year, month, day, fod, relPrices)
        == TierCount(f, Normal) * relPrices[i].normal + TierCount(f, Young) * relPrices[i].young
         + TierCount(f, Child) * relPrices[i].child
  {
    RightPriceIsRightChoice(relPrices, Today(year, month, day), fod);
  }
}
