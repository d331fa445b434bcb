/** `regs` (handler.ts, lines 430-620) without its storage calls: building
    the stored registration of one day with its lookup keys and head counts,
    the busiest-slot count of each day of a month, and the kitchen's view of
    one day split by slot. */
module Regs {
  import opened Js
  import opened Seqs
  import opened Types
  import opened DayPricer

  function IdCountOf(sf: SpecialFoodWithId): int {
    sf.count
  }

  /** `countFromFood`: every meal of a record, whatever its tier. */
  function CountFromFood(f: Food): int {
    OrZero(f.normal) + OrZero(f.young) + OrZero(f.child)
    + (if |f.special| > 0 then ReduceSum(f.special, CountOf, 0) else 0)
    + (if |f.specialIds| > 0 then ReduceSum(f.specialIds, IdCountOf, 0) else 0)
  }

  /** `day.slot ? countFromFood(day.slot) : 0` */
  function SlotTotal(day: Day, slot: Slot): int {
    match DayFood(day, slot)
    case Some(f) => CountFromFood(f)
    case None => 0
  }

  /** `createFromDay`: the stored registration of one day, its three keys
      printed without padding and its head count per slot. */
  function CreateFromDay(day: Day, userId: string, year: int, month: int): DBDay {
    DBDay(
      userIdYearMonthDay := userId + "-" + IntToString(year) + "-" + IntToString(month) + "-" + IntToString(day.num),
      userIdYearMonth := userId + "-" + IntToString(year) + "-" + IntToString(month),
      yearMonth := IntToString(year) + "-" + IntToString(month),
      year := year,
      month := month,
      day := day.num,
      userId := userId,
      lunch := day.lunch,
      coffee := day.coffee,
      dinner := day.dinner,
      totals := Totals(Some(SlotTotal(day, Lunch)), Some(SlotTotal(day, Coffee)), Some(SlotTotal(day, Dinner))))
  }

  lemma {:induction false} SumCountsByTier(s: seq<SpecialFood>)
    ensures Sum(s, CountOf)
         == Sum(Filter(s, HasBase(Normal)), CountOf) + Sum(Filter(s, HasBase(Young)), CountOf)
          + Sum(Filter(s, HasBase(Child)), CountOf)
    decreases |s|
  {
    if s != [] {
      SumCountsByTier(s[1..]);
    }
  }

  lemma {:induction false} IdCountsAreCounts(s: seq<SpecialFoodWithId>)
    ensures Sum(s, IdCountOf) == Sum(Untagged(s), CountOf)
    decreases |s|
  {
    if s != [] {
      assert Untagged(s)[1..] == Untagged(s[1..]);
      IdCountsAreCounts(s[1..]);
    }
  }

  /** The head count stored with a registration is the sum of the three
      tier counts the day pricer bills: every special meal is billed at
      exactly one tier. */
  lemma CountFromFoodIsTierSum(f: Food)
    ensures CountFromFood(f) == TierCount(f, Normal) + TierCount(f, Young) + TierCount(f, Child)
  {
    ReduceIsSum(f.special, CountOf, 0);
    ReduceIsSum(f.specialIds, IdCountOf, 0);
    IdCountsAreCounts(f.specialIds);
    SumAppend(f.special, Untagged(f.specialIds), CountOf);
    SumCountsByTier(SpecialItems(f));
    TierCountIsSum(f, Normal);
    TierCountIsSum(f, Young);
    TierCountIsSum(f, Child);
  }

  /** The keys of a stored registration nest: the month key is the
      unpadded `${year}-${month}`, the user-month key extends it with the
      user id, and the day key extends that with the day; the slot totals
      are the billed tier counts (0 for an absent slot). */
  lemma CreateFromDayShape(day: Day, userId: string, year: int, month: int, slot: Slot)
    ensures var r := CreateFromDay(day, userId, year, month);
      && r.yearMonth == IntToString(year) + "-" + IntToString(month)
      && r.year == year && r.month == month && r.day == day.num && r.userId == userId
      && r.userIdYearMonthDay == r.userIdYearMonth + "-" + IntToString(day.num)
      && r.userIdYearMonth == userId + "-" + r.yearMonth
      && RegFood(r, slot) == DayFood(day, slot)
      && OrZero(SlotCount(r.totals, slot))
         == (match DayFood(day, slot)
             case Some(f) => TierCount(f, Normal) + TierCount(f, Young) + TierCount(f, Child)
             case None => 0)
  {
    var r := CreateFromDay(day, userId, year, month);
    assert r.userIdYearMonth == userId + "-" + (IntToString(year) + "-" + IntToString(month));
    if DayFood(day, slot).Some? {
      CountFromFoodIsTierSum(DayFood(day, slot).value);
    }
  }

  /** Two unpadded keys `${a}-${b}` of non-negative numbers are equal
      exactly when the numbers are. */
  lemma NumberPairKey(a1: int, b1: int, a2: int, b2: int)
    requires a1 >= 0 && b1 >= 0 && a2 >= 0 && b2 >= 0
    ensures IntToString(a1) + "-" + IntToString(b1) == IntToString(a2) + "-" + IntToString(b2)
        <==> a1 == a2 && b1 == b2
  {
    if IntToString(a1) + "-" + IntToString(b1) == IntToString(a2) + "-" + IntToString(b2) {
      NumberOfIntToString(a1);
      NumberOfIntToString(a2);
      SeparatorJoinInjective(IntToString(a1), IntToString(b1), IntToString(a2), IntToString(b2), '-');
      IntToStringInjective(a1, a2);
      IntToStringInjective(b1, b2);
    }
  }

  /** The same for `${a}-${b}-${c}`. */
  lemma NumberTripleKey(a1: int, b1: int, c1: int, a2: int, b2: int, c2: int)
    requires a1 >= 0 && b1 >= 0 && c1 >= 0 && a2 >= 0 && b2 >= 0 && c2 >= 0
    ensures IntToString(a1) + "-" + IntToString(b1) + "-" + IntToString(c1)
         == IntToString(a2) + "-" + IntToString(b2) + "-" + IntToString(c2)
        <==> a1 == a2 && b1 == b2 && c1 == c2
  {
    var t1, t2 := IntToString(b1) + "-" + IntToString(c1), IntToString(b2) + "-" + IntToString(c2);
    assert IntToString(a1) + "-" + IntToString(b1) + "-" + IntToString(c1) == IntToString(a1) + "-" + t1;
    assert IntToString(a2) + "-" + IntToString(b2) + "-" + IntToString(c2) == IntToString(a2) + "-" + t2;
    if IntToString(a1) + "-" + t1 == IntToString(a2) + "-" + t2 {
      NumberOfIntToString(a1);
      NumberOfIntToString(a2);
      SeparatorJoinInjective(IntToString(a1), t1, IntToString(a2), t2, '-');
      IntToStringInjective(a1, a2);
      NumberPairKey(b1, c1, b2, c2);
    }
  }

  /** For non-negative years, months and days, the keys of the stored
      registrations pick out what the queries look them up by: the month key
      the (year, month), and for one user the user-month key the (year, month)
      and the day key the (year, month, day). */
  lemma CreatedKeysIdentify(d1: Day, d2: Day, userId: string, y1: int, m1: int, y2: int, m2: int)
    requires y1 >= 0 && m1 >= 0 && y2 >= 0 && m2 >= 0 && d1.num >= 0 && d2.num >= 0
    ensures var r1, r2 := CreateFromDay(d1, userId, y1, m1), CreateFromDay(d2, userId, y2, m2);
      && (r1.yearMonth == r2.yearMonth <==> y1 == y2 && m1 == m2)
      && (r1.userIdYearMonth == r2.userIdYearMonth <==> y1 == y2 && m1 == m2)
      && (r1.userIdYearMonthDay == r2.userIdYearMonthDay <==> y1 == y2 && m1 == m2 && d1.num == d2.num)
  {
    var u := userId + "-";
    var ym1, ym2 := IntToString(y1) + "-" + IntToString(m1), IntToString(y2) + "-" + IntToString(m2);
    var k1 := IntToString(y1) + "-" + IntToString(m1) + "-" + IntToString(d1.num);
    var k2 := IntToString(y2) + "-" + IntToString(m2) + "-" + IntToString(d2.num);
    NumberPairKey(y1, m1, y2, m2);
    NumberTripleKey(y1, m1, d1.num, y2, m2, d2.num);
    CommonHead(u, ym1, ym2);
    CommonHead(u, k1, k2);
    assert CreateFromDay(d1, userId, y1, m1).userIdYearMonth == u + ym1;
    assert CreateFromDay(d2, userId, y2, m2).userIdYearMonth == u + ym2;
    assert CreateFromDay(d1, userId, y1, m1).userIdYearMonthDay == u + k1;
    assert CreateFromDay(d2, userId, y2, m2).userIdYearMonthDay == u + k2;
  }

  /** The stored head count of a slot. */
  function SlotCount(t: Totals, slot: Slot): Option<int> {
    match slot
    case Lunch => t.lunch
    case Coffee => t.coffee
    case Dinner => t.dinner
  }

  // ---------------------------------------------------------------------
  // allDays

  datatype DayCount = DayCount(num: int, count: int)

  /** One element of `allDays`: the day and the largest of its three slot
      totals, an absent total counting as 0. */
  function AllDaysCount(r: DBDay): (c: DayCount)
    ensures c.num == r.day
    ensures forall slot :: c.count >= OrZero(SlotCount(r.totals, slot))
    ensures exists slot :: c.count == OrZero(SlotCount(r.totals, slot))
  {
    var count := Max(Max(OrZero(r.totals.lunch), OrZero(r.totals.coffee)), OrZero(r.totals.dinner));
    assert count == OrZero(SlotCount(r.totals, Lunch)) || count == OrZero(SlotCount(r.totals, Coffee))
        || count == OrZero(SlotCount(r.totals, Dinner));
    DayCount(r.day, count)
  }

  /** `allDays`: the busiest-slot count of every fetched registration, in order. */
  function AllDays(items: seq<DBDay>): (r: seq<DayCount>)
    ensures |r| == |items|
    ensures forall i :: 0 <= i < |items| ==> r[i] == AllDaysCount(items[i])
  {
    seq(|items|, i requires 0 <= i < |items| => AllDaysCount(items[i]))
  }

  /** For a registration built by `createFromDay` the count is the largest
      number of meals of any one slot of that day. */
  lemma AllDaysOfCreated(day: Day, userId: string, year: int, month: int)
    ensures var c := AllDaysCount(CreateFromDay(day, userId, year, month));
      && (forall slot :: c.count >= SlotTotal(day, slot))
      && (exists slot :: c.count == SlotTotal(day, slot))
  {
    var r := CreateFromDay(day, userId, year, month);
    forall slot ensures OrZero(SlotCount(r.totals, slot)) == SlotTotal(day, slot) {
    }
  }

  // ---------------------------------------------------------------------
  // getAllByDay

  function HasSlot(slot: Slot): DBDay -> bool {
    (r: DBDay) => RegFood(r, slot).Some?
  }

  /** The kitchen's list for one slot: the registrations that have food in
      that slot, in order, each as its food tagged with the user id. */
  function SlotFoods(items: seq<DBDay>, slot: Slot): seq<UserFood> {
    var fs := Filter(items, HasSlot(slot));
    seq(|fs|, i requires 0 <= i < |fs| => UserFood(RegFood(fs[i], slot).value, fs[i].userId))
  }

  lemma SlotFoodsSnoc(items: seq<DBDay>, r: DBDay, slot: Slot)
    ensures SlotFoods(items + [r], slot)
         == SlotFoods(items, slot) + (match RegFood(r, slot)
                                       case Some(f) => [UserFood(f, r.userId)]
                                       case None => [])
  {
    FilterAppend(items, [r], HasSlot(slot));
    assert Filter([r], HasSlot(slot)) == if RegFood(r, slot).Some? then [r] else [];
  }

  /** `getAllByDay` on the fetched registrations of one day: each one's
      food of each present slot is pushed onto that slot's list. */
  method GetAllByDay(year: int, month: int, day: int, items: seq<DBDay>) returns (k: KitchenDay)
    ensures k.year == year && k.month == month && k.day == day
    ensures k.lunch == SlotFoods(items, Lunch)
    ensures k.coffee == SlotFoods(items, Coffee)
    ensures k.dinner == SlotFoods(items, Dinner)
  {
    var lunch: seq<UserFood> := [];
    var coffee: seq<UserFood> := [];
    var dinner: seq<UserFood> := [];
    for i := 0 to |items|
      invariant lunch == SlotFoods(items[..i], Lunch)
      invariant coffee == SlotFoods(items[..i], Coffee)
      invariant dinner == SlotFoods(items[..i], Dinner)
    {
      var reg := items[i];
      assert items[..i + 1] == items[..i] + [reg];
      SlotFoodsSnoc(items[..i], reg, Lunch);
      SlotFoodsSnoc(items[..i], reg, Coffee);
      SlotFoodsSnoc(items[..i], reg, Dinner);
      if reg.lunch.Some? {
        lunch := lunch + [UserFood(reg.lunch.value, reg.userId)];
      }
      if reg.coffee.Some? {
        coffee := coffee + [UserFood(reg.coffee.value, reg.userId)];
      }
      if reg.dinner.Some? {
        dinner := dinner + [UserFood(reg.dinner.value, reg.userId)];
      }
    }
    assert items[..|items|] == items;
    k := KitchenDay(year, month, day, lunch, coffee, dinner);
  }

  /** A slot's list holds one entry per registration with food in that
      slot, and an entry is exactly such a registration's food and user. */
  lemma SlotFoodsPartition(items: seq<DBDay>, slot: Slot)
    ensures |SlotFoods(items, slot)| == |Filter(items, HasSlot(slot))|
    ensures forall uf :: uf in SlotFoods(items, slot) <==>
      exists r :: r in items && RegFood(r, slot) == Some(uf.food) && r.userId == uf.userId
  {
    var fs := Filter(items, HasSlot(slot));
    var out := SlotFoods(items, slot);
    forall uf ensures uf in out <==> exists r :: r in items && RegFood(r, slot) == Some(uf.food) && r.userId == uf.userId {
      if uf in out {
        var i :| 0 <= i < |out| && out[i] == uf;
        FilterMembership(items, HasSlot(slot), fs[i]);
      }
      if r :| r in items && RegFood(r, slot) == Some(uf.food) && r.userId == uf.userId {
        FilterMembership(items, HasSlot(slot), r);
        var i :| 0 <= i < |fs| && fs[i] == r;
        assert out[i] == uf;
      }
    }
  }
}
