/** `paymentUpdates` (handler.ts, lines 751-926) without its storage calls:
    the yearly balance of a user, the monthly charge of a user from the
    month's registrations and price rules, and the bulk path that groups a
    month's registrations by user. The fetched rules, registrations and
    payments are parameters. */
module PaymentUpdates {
  import opened Js
  import opened Seqs
  import opened Types
  import opened DayPricer
  import opened Payments

  // ---------------------------------------------------------------------
  // The yearly balance

  /** `updateYearByUserId` on the items `getPaymentsOfYear` fetched: the
      yearly entry whose amount is the sum of the fetched payments. */
  function UpdateYearByUserId(userId: string, year: int, res: seq<DBPayment>, yearRes: seq<DBPayment>): (e: DBPayment)
    ensures e.ptype == Year && e.userId == userId && e.year == year
    ensures e.id == YearKey(userId, year) && e.userQueryKey == userId
    ensures e.amount == Sum(Filter(res + yearRes, EntryNotYear(userId, year)), EntryAmount)
    ensures e == CreateYear(year, userId, e.amount, "Vuosi " + IntToString(year))
  {
    var payments := PaymentsOfYear(userId, year, res, yearRes);
    ReduceIsSum(payments, PaymentAmount, 0);
    PaymentsOfYearSum(userId, year, res + yearRes);
    CreateYear(year, userId, ReduceSum(payments, PaymentAmount, 0), "Vuosi " + IntToString(year))
  }

  /** The stored yearly entry of the year itself does not count: recomputing
      with it among the fetched items gives the same entry again. */
  lemma YearIgnoresOwnEntry(userId: string, year: int, res: seq<DBPayment>, yearRes: seq<DBPayment>, saved: DBPayment)
    requires saved.id == YearKey(userId, year)
    ensures UpdateYearByUserId(userId, year, res, yearRes + [saved]) == UpdateYearByUserId(userId, year, res, yearRes)
  {
    assert res + (yearRes + [saved]) == (res + yearRes) + [saved];
    FilterSnoc(res + yearRes, saved, EntryNotYear(userId, year));
    var kept := Filter(res + yearRes, EntryNotYear(userId, year));
    assert kept + [] == kept;
  }

  /** Recomputing a year right after saving its entry changes nothing. */
  lemma YearRecomputeIsStable(userId: string, year: int, res: seq<DBPayment>, yearRes: seq<DBPayment>)
    ensures var e := UpdateYearByUserId(userId, year, res, yearRes);
      UpdateYearByUserId(userId, year, res, yearRes + [e]) == e
  {
    YearIgnoresOwnEntry(userId, year, res, yearRes, UpdateYearByUserId(userId, year, res, yearRes));
  }

  /** Every other entry adds its amount to the balance: a monthly entry of
      the year always does, since its id is never the yearly id. */
  lemma YearCountsEntry(userId: string, year: int, res: seq<DBPayment>, yearRes: seq<DBPayment>, e: DBPayment)
    requires e.id != YearKey(userId, year)
    ensures UpdateYearByUserId(userId, year, res, yearRes + [e]).amount
         == UpdateYearByUserId(userId, year, res, yearRes).amount + e.amount
  {
    assert res + (yearRes + [e]) == (res + yearRes) + [e];
    FilterSnoc(res + yearRes, e, EntryNotYear(userId, year));
    SumAppend(Filter(res + yearRes, EntryNotYear(userId, year)), [e], EntryAmount);
  }

  lemma YearCountsMonth(userId: string, year: int, res: seq<DBPayment>, yearRes: seq<DBPayment>,
                        month: int, amount: int, name: string)
    ensures UpdateYearByUserId(userId, year, res + [CreateMonth(month, year, userId, amount, name)], yearRes).amount
         == UpdateYearByUserId(userId, year, res, yearRes).amount + amount
  {
    var e := CreateMonth(month, year, userId, amount, name);
    MonthIdIsNotYearKey(userId, year, month);
    PermuteLast(res, e, yearRes);
    SumPermutation(Filter(res + [e] + yearRes, EntryNotYear(userId, year)),
                   Filter(res + yearRes + [e], EntryNotYear(userId, year)), EntryAmount);
    YearCountsEntry(userId, year, res, yearRes, e);
    assert res + (yearRes + [e]) == res + yearRes + [e];
  }

  /** The yearly entry of another year counts too: the bare-user-id query
      returns the yearly entries of every year. */
  lemma YearCountsOtherYears(userId: string, year: int, res: seq<DBPayment>, yearRes: seq<DBPayment>,
                             other: int, amount: int, name: string)
    requires other != year
    ensures UpdateYearByUserId(userId, year, res, yearRes + [CreateYear(other, userId, amount, name)]).amount
         == UpdateYearByUserId(userId, year, res, yearRes).amount + amount
  {
    var e := CreateYear(other, userId, amount, name);
    if e.id == YearKey(userId, year) {
      assert userId + "-" + IntToString(other) == userId + "-" + IntToString(year);
      assert IntToString(other) == (userId + "-" + IntToString(other))[|userId| + 1..];
      IntToStringInjective(other, year);
    }
    YearCountsEntry(userId, year, res, yearRes, e);
  }

  /** The consequence: recomputing two years in turn feeds each year's
      balance into the other. A user with nothing in `year` and one monthly
      charge `amount` in `other` gets balance 0 for `year`; after `other`
      is recomputed, recomputing `year` with no new entry gives `amount`. */
  lemma YearBalancesFeedEachOther(userId: string, year: int, other: int, month: int, amount: int, name: string)
    requires year != other && amount != 0
    ensures var first := UpdateYearByUserId(userId, year, [], []);
      var monthEntry := CreateMonth(month, other, userId, amount, name);
      var otherYear := UpdateYearByUserId(userId, other, [monthEntry], [first]);
      var again := UpdateYearByUserId(userId, year, [], [first, otherYear]);
      first.amount == 0 && again.amount == amount && again != first
  {
    var first := UpdateYearByUserId(userId, year, [], []);
    var monthEntry := CreateMonth(month, other, userId, amount, name);
    YearCountsMonth(userId, other, [], [first], month, amount, name);
    YearCountsOtherYears(userId, other, [], [], year, 0, "Vuosi " + IntToString(year));
    var otherYear := UpdateYearByUserId(userId, other, [monthEntry], [first]);
    assert otherYear.amount == amount;
    YearIgnoresOwnEntry(userId, year, [], [], first);
    YearCountsOtherYears(userId, year, [], [first], other, amount, "Vuosi " + IntToString(other));
    assert [first] + [otherYear] == [first, otherYear];
  }

  /** The balance the yearly entry is meant to carry: the individual and
      monthly entries of that year only, i.e. the items keyed by `${userId}-${year}`,
      less the yearly id. */
  function YearBalance(userId: string, year: int, res: seq<DBPayment>): (e: DBPayment)
    ensures e.ptype == Year && e.userId == userId && e.year == year
    ensures e.id == YearKey(userId, year) && e.userQueryKey == userId
    ensures e.amount == Sum(Filter(res, EntryNotYear(userId, year)), EntryAmount)
    ensures e == CreateYear(year, userId, e.amount, "Vuosi " + IntToString(year))
  {
    var payments := PaymentsOfYear(userId, year, res, []);
    assert res + [] == res;
    ReduceIsSum(payments, PaymentAmount, 0);
    PaymentsOfYearSum(userId, year, res);
    CreateYear(year, userId, ReduceSum(payments, PaymentAmount, 0), "Vuosi " + IntToString(year))
  }

  /** The corrected balance agrees with the source whenever no yearly entry
      of another year is fetched, and it is a function of the year's own
      entries only, so recomputing other years never changes it. */
  lemma YearBalanceIsStable(userId: string, year: int, res: seq<DBPayment>, yearRes: seq<DBPayment>)
    requires forall i :: 0 <= i < |yearRes| ==> yearRes[i].id == YearKey(userId, year)
    ensures YearBalance(userId, year, res) == UpdateYearByUserId(userId, year, res, yearRes)
    ensures YearBalance(userId, year, res + [YearBalance(userId, year, res)]) == YearBalance(userId, year, res)
  {
    FilterAppend(res, yearRes, EntryNotYear(userId, year));
    NoneKept(yearRes, EntryNotYear(userId, year));
    assert Filter(res, EntryNotYear(userId, year)) + [] == Filter(res, EntryNotYear(userId, year));
    var e := YearBalance(userId, year, res);
    FilterSnoc(res, e, EntryNotYear(userId, year));
  }

  // ---------------------------------------------------------------------
  // The monthly charge

  /** The cost of one slot of a day, 0 when the slot is absent. */
  function SlotCost(food: Option<Food>, year: int, month: int, day: int, fod: Slot, relPrices: seq<Price>): int {
    match food
    case Some(f) => PriceByFood(f, year, month, day, fod, relPrices)
    case None => 0
  }

  /** The term one day adds to the month `total`. */
  function DayCost(d: Day, year: int, month: int, relPrices: seq<Price>): int {
    SlotCost(d.lunch, year, month, d.num, Lunch, relPrices)
    + SlotCost(d.coffee, year, month, d.num, Coffee, relPrices)
    + SlotCost(d.dinner, year, month, d.num, Dinner, relPrices)
  }

  function DayTerm(year: int, month: int, relPrices: seq<Price>): Day -> int {
    (d: Day) => DayCost(d, year, month, relPrices)
  }

  /** `total`: the `reduce` over the days of the month. */
  function MonthTotal(days: seq<Day>, year: int, month: int, relPrices: seq<Price>): int {
    ReduceSum(days, DayTerm(year, month, relPrices), 0)
  }

  /** The month total is the sum over the days of their lunch, coffee and
      dinner costs; it splits over any division of the days and does not
      depend on their order. */
  lemma MonthTotalIsSum(days: seq<Day>, more: seq<Day>, year: int, month: int, relPrices: seq<Price>)
    ensures MonthTotal(days, year, month, relPrices) == Sum(days, DayTerm(year, month, relPrices))
    ensures MonthTotal(days + more, year, month, relPrices)
         == MonthTotal(days, year, month, relPrices) + MonthTotal(more, year, month, relPrices)
  {
    var t := DayTerm(year, month, relPrices);
    ReduceIsSum(days, t, 0);
    ReduceIsSum(more, t, 0);
    ReduceIsSum(days + more, t, 0);
    SumAppend(days, more, t);
  }

  lemma MonthTotalPermutation(days: seq<Day>, other: seq<Day>, year: int, month: int, relPrices: seq<Price>)
    requires multiset(days) == multiset(other)
    ensures MonthTotal(days, year, month, relPrices) == MonthTotal(other, year, month, relPrices)
  {
    var t := DayTerm(year, month, relPrices);
    ReduceIsSum(days, t, 0);
    ReduceIsSum(other, t, 0);
    SumPermutation(days, other, t);
  }

  /** `monthNames` */
  const MonthNames: seq<string> := ["Tammikuu", "Helmikuu", "Maaliskuu", "Huhtikuu", "Toukokuu", "Kesäkuu",
                                    "Heinäkuu", "Elokuu", "Syyskuu", "Lokakuu", "Marraskuu", "Joulukuu"]

  /** `${monthNames[month] || "Error"} ${year}` */
  function MonthLabel(month: int, year: int): (r: string)
    ensures 0 <= month < 12 ==> r == MonthNames[month] + " " + IntToString(year)
    ensures r == "Error " + IntToString(year) <==> !(0 <= month < 12)
  {
    (if 0 <= month < |MonthNames| then MonthNames[month] else "Error") + " " + IntToString(year)
  }

  /** `privMonthUpdate`: the monthly entry charging the month's total. */
  function PrivMonthUpdate(userId: string, year: int, month: int, relPrices: seq<Price>, days: seq<Day>): (e: DBPayment)
    ensures e.ptype == Month && e.userId == userId && e.year == year
    ensures e.id == MonthId(userId, year, month) && e.userQueryKey == YearKey(userId, year)
    ensures e.amount == -Sum(days, DayTerm(year, month, relPrices))
    ensures e.name == MonthLabel(month, year)
  {
    MonthTotalIsSum(days, [], year, month, relPrices);
    CreateMonth(month, year, userId, -MonthTotal(days, year, month, relPrices), MonthLabel(month, year))
  }

  // ---------------------------------------------------------------------
  // The month's price rules

  /** `p.start < ${year}-MM(month + 2) && p.end > ${year}-MM(month + 1)`:
      the rule starts before the next month and ends after the month's
      bare `YYYY-MM` prefix. */
  predicate OverlapsMonth(p: Price, year: int, month: int) {
    Lt(p.start, IntToString(year) + "-" + Pad2(month + 2)) && Lt(IntToString(year) + "-" + Pad2(month + 1), p.end)
  }

  function MonthTest(year: int, month: int): Price -> bool {
    (p: Price) => OverlapsMonth(p, year, month)
  }

  /** `relPrices`: the rules of the year that touch the month. */
  function RelPrices(prices: seq<Price>, year: int, month: int): (r: seq<Price>)
    ensures forall i :: 0 <= i < |r| ==> OverlapsMonth(r[i], year, month)
    ensures forall p :: p in r <==> p in prices && OverlapsMonth(p, year, month)
  {
    var r := Filter(prices, MonthTest(year, month));
    forall p
      ensures p in r <==> p in prices && OverlapsMonth(p, year, month)
    {
      FilterMembership(prices, MonthTest(year, month), p);
    }
    r
  }

  /** A rule in effect on any day of the month passes the month filter. */
  lemma CandidateOverlapsMonth(p: Price, year: int, month: int, day: int, fod: Slot)
    requires 0 <= month < 12
    requires IsCandidate(p, Today(year, month, day), fod)
    ensures OverlapsMonth(p, year, month)
  {
    var prefix := IntToString(year) + "-";
    var cur, next := prefix + Pad2(month + 1), prefix + Pad2(month + 2);
    var rest := "-" + Pad2(day);
    var today := Today(year, month, day);
    assert today == cur + rest;
    Pad2Ordered(month + 1, month + 2);
    LtCommonPrefix(prefix, Pad2(month + 1), Pad2(month + 2));
    LtEqualLengthExtend(cur, next, rest, []);
    assert next + [] == next;
    LeLtTransitive(p.start, today, next);
    LtProperPrefix(cur, rest);
    LtTrichotomy(p.end, today);
    LeIsLtOrEq(today, p.end);
    LtLeTransitive(cur, today, p.end);
  }

  /** Filtering the rules to the month changes no day's choice of rule. */
  lemma RelPricesKeepRightPrice(prices: seq<Price>, year: int, month: int, day: int, fod: Slot)
    requires 0 <= month < 12
    ensures RightPrice(RelPrices(prices, year, month), Today(year, month, day), fod)
         == RightPrice(prices, Today(year, month, day), fod)
  {
    var today := Today(year, month, day);
    forall p | CandidateTest(today, fod)(p)
      ensures MonthTest(year, month)(p)
    {
      CandidateOverlapsMonth(p, year, month, day, fod);
    }
    FilterOfFilter(prices, CandidateTest(today, fod), MonthTest(year, month));
  }

  /** ... and so changes no month total. */
  lemma RelPricesKeepMonthTotal(days: seq<Day>, prices: seq<Price>, year: int, month: int)
    requires 0 <= month < 12
    ensures MonthTotal(days, year, month, RelPrices(prices, year, month)) == MonthTotal(days, year, month, prices)
  {
    var rel := RelPrices(prices, year, month);
    forall i | 0 <= i < |days|
      ensures DayTerm(year, month, rel)(days[i]) == DayTerm(year, month, prices)(days[i])
    {
      RelPricesKeepRightPrice(prices, year, month, days[i].num, Lunch);
      RelPricesKeepRightPrice(prices, year, month, days[i].num, Coffee);
      RelPricesKeepRightPrice(prices, year, month, days[i].num, Dinner);
    }
    SumCongruent(days, DayTerm(year, month, rel), DayTerm(year, month, prices));
    MonthTotalIsSum(days, [], year, month, rel);
    MonthTotalIsSum(days, [], year, month, prices);
  }

  // ---------------------------------------------------------------------
  // One user, one month

  /** A stored registration as a day of `RealTMonth`. */
  function ToDay(r: DBDay): Day {
    Day(r.day, r.lunch, r.coffee, r.dinner)
  }

  function ToDays(regs: seq<DBDay>): (days: seq<Day>)
    ensures |days| == |regs|
    ensures forall i :: 0 <= i < |regs| ==> days[i] == ToDay(regs[i])
  {
    seq(|regs|, i requires 0 <= i < |regs| => ToDay(regs[i]))
  }

  /** The monthly entry `updateMonthByUserId` saves, from the rules of the
      year and the user's registrations of the month. */
  function UpdateMonthByUserId(userId: string, year: int, month: int, prices: seq<Price>, userRegs: seq<DBDay>): (e: DBPayment)
    ensures e.id == MonthId(userId, year, month) && e.userId == userId && e.ptype == Month
    ensures e.amount == -Sum(userRegs, RegCost(year, month, RelPrices(prices, year, month)))
  {
    var rel := RelPrices(prices, year, month);
    DaysSum(userRegs, year, month, rel);
    PrivMonthUpdate(userId, year, month, rel, ToDays(userRegs))
  }

  /** For a month in 0..11 the amount is what the year's unfiltered rules
      give: the filter only saves work. */
  lemma MonthUsesYearRules(userId: string, year: int, month: int, prices: seq<Price>, userRegs: seq<DBDay>)
    requires 0 <= month < 12
    ensures UpdateMonthByUserId(userId, year, month, prices, userRegs).amount
         == -Sum(userRegs, RegCost(year, month, prices))
  {
    var rel := RelPrices(prices, year, month);
    RelPricesKeepMonthTotal(ToDays(userRegs), prices, year, month);
    MonthTotalIsSum(ToDays(userRegs), [], year, month, rel);
    MonthTotalIsSum(ToDays(userRegs), [], year, month, prices);
    DaysSum(userRegs, year, month, rel);
    DaysSum(userRegs, year, month, prices);
  }

  /** What one registration costs. */
  function RegCost(year: int, month: int, prices: seq<Price>): DBDay -> int {
    (r: DBDay) => DayCost(ToDay(r), year, month, prices)
  }

  lemma {:induction false} DaysSum(regs: seq<DBDay>, year: int, month: int, prices: seq<Price>)
    ensures Sum(ToDays(regs), DayTerm(year, month, prices)) == Sum(regs, RegCost(year, month, prices))
    decreases |regs|
  {
    if regs != [] {
      assert ToDays(regs)[1..] == ToDays(regs[1..]);
      DaysSum(regs[1..], year, month, prices);
    }
  }

  // ---------------------------------------------------------------------
  // All users of one month

  function OfUser(userId: string): DBDay -> bool {
    (r: DBDay) => r.userId == userId
  }

  /** The keys of `_.groupBy(curRegs, dbu => dbu.userId)` in the order
      `Object.keys` lists them: each user id once, by first appearance. */
  function UserIds(regs: seq<DBDay>): (ids: seq<string>)
    ensures forall i, j :: 0 <= i < j < |ids| ==> ids[i] != ids[j]
    decreases |regs|
  {
    if regs == [] then []
    else
      var init := UserIds(regs[..|regs| - 1]);
      var u := regs[|regs| - 1].userId;
      if u in init then init else init + [u]
  }

  /** A user id is a key exactly when some registration has it. */
  lemma {:induction false} UserIdsMembership(regs: seq<DBDay>, u: string)
    ensures u in UserIds(regs) <==> exists r :: r in regs && r.userId == u
    decreases |regs|
  {
    if regs != [] {
      var n := |regs| - 1;
      UserIdsMembership(regs[..n], u);
      assert regs == regs[..n] + [regs[n]];
      if r :| r in regs && r.userId == u {
        if r != regs[n] {
          assert r in regs[..n];
        }
      }
    }
  }

  /** The monthly entries of `updateMonthsByMonth`, one per user, each from
      that user's group of registrations. */
  function UpdateMonthsByMonth(year: int, month: int, prices: seq<Price>, regs: seq<DBDay>): (r: seq<DBPayment>)
    ensures |r| == |UserIds(regs)|
    ensures forall i :: 0 <= i < |r| ==>
      r[i] == UpdateMonthByUserId(UserIds(regs)[i], year, month, prices, Filter(regs, OfUser(UserIds(regs)[i])))
  {
    var ids := UserIds(regs);
    seq(|ids|, i requires 0 <= i < |ids| =>
      var group := Filter(regs, OfUser(ids[i]));
      PrivMonthUpdate(ids[i], year, month, RelPrices(prices, year, month), ToDays(group)))
  }

  /** Each user of the month gets exactly one entry, and no two entries
      have the same id, so the saves never overwrite each other. */
  lemma MonthEntriesDistinct(year: int, month: int, prices: seq<Price>, regs: seq<DBDay>)
    ensures var r := UpdateMonthsByMonth(year, month, prices, regs);
      && (forall i, j :: 0 <= i < j < |r| ==> r[i].id != r[j].id)
      && (forall k :: 0 <= k < |r| ==> exists g :: g in regs && g.userId == r[k].userId)
      && (forall g :: g in regs ==> exists k :: 0 <= k < |r| && r[k].userId == g.userId)
  {
    var r := UpdateMonthsByMonth(year, month, prices, regs);
    var ids := UserIds(regs);
    forall i, j | 0 <= i < j < |r|
      ensures r[i].id != r[j].id
    {
      if r[i].id == r[j].id {
        MonthIdDeterminesUser(ids[i], ids[j], year, month);
      }
    }
    forall k | 0 <= k < |r|
      ensures exists g :: g in regs && g.userId == r[k].userId
    {
      UserIdsMembership(regs, ids[k]);
    }
    forall g | g in regs
      ensures exists k :: 0 <= k < |r| && r[k].userId == g.userId
    {
      UserIdsMembership(regs, g.userId);
      var k :| 0 <= k < |ids| && ids[k] == g.userId;
      assert r[k].userId == g.userId;
    }
  }

  /** Sum over the users of `ids` of the cost of their registrations. */
  function GroupedSum(ids: seq<string>, regs: seq<DBDay>, term: DBDay -> int): int
    decreases |ids|
  {
    if ids == [] then 0 else Sum(Filter(regs, OfUser(ids[0])), term) + GroupedSum(ids[1..], regs, term)
  }

  lemma {:induction false} GroupedSumCons(ids: seq<string>, g: DBDay, rest: seq<DBDay>, term: DBDay -> int)
    requires forall i, j :: 0 <= i < j < |ids| ==> ids[i] != ids[j]
    ensures GroupedSum(ids, [g] + rest, term)
         == GroupedSum(ids, rest, term) + (if g.userId in ids then term(g) else 0)
    decreases |ids|
  {
    if ids != [] {
      assert ([g] + rest)[0] == g && ([g] + rest)[1..] == rest;
      GroupedSumCons(ids[1..], g, rest, term);
      if g.userId == ids[0] {
        assert g.userId !in ids[1..];
      }
    }
  }

  /** Grouping by user loses and repeats nothing: summing per group is
      summing over all registrations, when every user is a group key. */
  lemma {:induction false} GroupedSumIsSum(ids: seq<string>, regs: seq<DBDay>, term: DBDay -> int)
    requires forall i, j :: 0 <= i < j < |ids| ==> ids[i] != ids[j]
    requires forall k :: 0 <= k < |regs| ==> regs[k].userId in ids
    ensures GroupedSum(ids, regs, term) == Sum(regs, term)
    decreases |regs|
  {
    if regs == [] {
      EmptyGroups(ids, term);
    } else {
      assert regs == [regs[0]] + regs[1..];
      GroupedSumCons(ids, regs[0], regs[1..], term);
      GroupedSumIsSum(ids, regs[1..], term);
    }
  }

  lemma {:induction false} EmptyGroups(ids: seq<string>, term: DBDay -> int)
    ensures GroupedSum(ids, [], term) == 0
    decreases |ids|
  {
    if ids != [] {
      EmptyGroups(ids[1..], term);
    }
  }

  lemma {:induction false} EntriesSum(ids: seq<string>, entries: seq<DBPayment>, regs: seq<DBDay>, term: DBDay -> int)
    requires |entries| == |ids|
    requires forall i :: 0 <= i < |ids| ==> entries[i].amount == -Sum(Filter(regs, OfUser(ids[i])), term)
    ensures Sum(entries, EntryAmount) == -GroupedSum(ids, regs, term)
    decreases |ids|
  {
    if ids != [] {
      EntriesSum(ids[1..], entries[1..], regs, term);
    }
  }

  /** The bulk path charges every registration of the month exactly once:
      the entries together charge the cost of all the registrations. */
  lemma BulkChargesEveryRegistrationOnce(year: int, month: int, prices: seq<Price>, regs: seq<DBDay>)
    ensures Sum(UpdateMonthsByMonth(year, month, prices, regs), EntryAmount)
         == -Sum(regs, RegCost(year, month, RelPrices(prices, year, month)))
  {
    var ids := UserIds(regs);
    forall k | 0 <= k < |regs|
      ensures regs[k].userId in ids
    {
      UserIdsMembership(regs, regs[k].userId);
    }
    var cost := RegCost(year, month, RelPrices(prices, year, month));
    EntriesSum(ids, UpdateMonthsByMonth(year, month, prices, regs), regs, cost);
    GroupedSumIsSum(ids, regs, cost);
  }
}
