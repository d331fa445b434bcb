/** `payments` (handler.ts, lines 622-749) without its storage calls: the
    three kinds of payment entry with their ids, dates and query keys, the
    parsing of a stored entry back into a client payment, and the filter
    that leaves the yearly entry out of a year's payments. */
module Payments {
  import opened Js
  import opened Seqs
  import opened Types
  import opened Calendar

  /** `${userId}-${year}`: the query key of a user's year, and the id of
      the yearly entry. */
  function YearKey(userId: string, year: int): string {
    userId + "-" + IntToString(year)
  }

  /** `create.ind`: a payment the user enters, dated with the 0-based month
      printed as `month + 1`. `freshId` is what `uuid()` returns when no
      usable id is given (an absent or empty id). */
  function CreateInd(dateDay: DateDay, userId: string, amount: int, name: string,
                     id: Option<string>, freshId: string): (e: DBPayment)
    ensures e.ptype == Ind && e.amount == amount && e.userId == userId && e.year == dateDay.year
    ensures e.userQueryKey == YearKey(userId, dateDay.year)
    ensures e.id == (if id.Some? && id.value != "" then id.value else freshId)
  {
    DBPayment(
      date := IntToString(dateDay.year) + "-" + Pad2(dateDay.month + 1) + "-" + Pad2(dateDay.day),
      amount := amount,
      id := if id.Some? && id.value != "" then id.value else freshId,
      userQueryKey := YearKey(userId, dateDay.year),
      userId := userId,
      year := dateDay.year,
      ptype := Ind,
      name := name)
  }

  /** `${userId}-${year}-MM`: the id of a monthly entry, the 0-based
      month padded to two digits. */
  function MonthId(userId: string, year: int, month: int): string {
    YearKey(userId, year) + "-" + Pad2(month)
  }

  /** `create.month`: the entry of one 0-based month. The 0-based month is
      what its id and date print; the day is the month's last day. */
  function CreateMonth(month: int, year: int, userId: string, amount: int, name: string): (e: DBPayment)
    ensures e.ptype == Month && e.amount == amount && e.userId == userId && e.year == year
    ensures e.id == MonthId(userId, year, month) && e.userQueryKey == YearKey(userId, year)
  {
    DBPayment(
      date := IntToString(year) + "-" + Pad2(month) + "-" + Pad2(LastDayOfMonth(year, month)),
      amount := amount,
      id := MonthId(userId, year, month),
      userQueryKey := YearKey(userId, year),
      userId := userId,
      year := year,
      ptype := Month,
      name := name)
  }

  /** `create.year`: the yearly balance, dated on the last day of the year
      and queried by the bare user id. */
  function CreateYear(year: int, userId: string, amount: int, name: string): (e: DBPayment)
    ensures e.ptype == Year && e.amount == amount && e.userId == userId && e.year == year
    ensures e.id == YearKey(userId, year) && e.userQueryKey == userId
  {
    DBPayment(
      date := IntToString(year) + "-12-31",
      amount := amount,
      id := YearKey(userId, year),
      userQueryKey := userId,
      userId := userId,
      year := year,
      ptype := Year,
      name := name)
  }

  /** `asPayment`: the client's view of a stored entry, its date string
      split at the dashes and read as numbers. */
  function AsPayment(dbp: DBPayment): (p: Payment)
    ensures p.id == dbp.id && p.amount == dbp.amount && p.name == dbp.name && p.ptype == dbp.ptype
  {
    var parts := Split(dbp.date, '-');
    Payment(dbp.id, dbp.amount, dbp.name, dbp.ptype,
            PaymentDate(NumberAt(parts, 0), NumberAt(parts, 1), NumberAt(parts, 2)))
  }

  /** The date string of three non-negative numbers reads back as those numbers. */
  lemma ReadDate(y: int, m: int, d: int, ms: string, ds: string)
    requires y >= 0 && m >= 0 && d >= 0
    requires NumberOf(ms) == Num(m) && '-' !in ms
    requires NumberOf(ds) == Num(d) && '-' !in ds
    ensures var parts := Split(IntToString(y) + "-" + ms + "-" + ds, '-');
      PaymentDate(NumberAt(parts, 0), NumberAt(parts, 1), NumberAt(parts, 2))
        == PaymentDate(Num(y), Num(m), Num(d))
  {
    NumberOfIntToString(y);
    SplitJoin3(IntToString(y), ms, ds, '-');
  }

  /** A user's own payment reads back with the month it was printed with,
      `month + 1`. */
  lemma AsPaymentOfInd(dateDay: DateDay, userId: string, amount: int, name: string,
                       id: Option<string>, freshId: string)
    requires dateDay.year >= 0 && dateDay.month + 1 >= 0 && dateDay.day >= 0
    ensures AsPayment(CreateInd(dateDay, userId, amount, name, id, freshId)).date
         == PaymentDate(Num(dateDay.year), Num(dateDay.month + 1), Num(dateDay.day))
  {
    NumberOfPad2(dateDay.month + 1);
    NumberOfPad2(dateDay.day);
    ReadDate(dateDay.year, dateDay.month + 1, dateDay.day, Pad2(dateDay.month + 1), Pad2(dateDay.day));
  }

  /** A monthly entry reads back with the 0-based month and the month's
      last day. */
  lemma AsPaymentOfMonth(month: int, year: int, userId: string, amount: int, name: string)
    requires year >= 0 && month >= 0
    ensures AsPayment(CreateMonth(month, year, userId, amount, name)).date
         == PaymentDate(Num(year), Num(month), Num(LastDayOfMonth(year, month)))
  {
    var last := LastDayOfMonth(year, month);
    NumberOfPad2(month);
    NumberOfPad2(last);
    ReadDate(year, month, last, Pad2(month), Pad2(last));
  }

  /** A yearly entry reads back as December 31st. */
  lemma AsPaymentOfYear(year: int, userId: string, amount: int, name: string)
    requires year >= 0
    ensures AsPayment(CreateYear(year, userId, amount, name)).date == PaymentDate(Num(year), Num(12), Num(31))
  {
    assert IntToString(12) == "12" && IntToString(31) == "31";
    NumberOfIntToString(12);
    NumberOfIntToString(31);
    assert IntToString(year) + "-12-31" == IntToString(year) + "-" + "12" + "-" + "31";
    ReadDate(year, 12, 31, "12", "31");
  }

  // ---------------------------------------------------------------------
  // Ids

  /** A monthly entry never has the yearly entry's id, so the year filter
      keeps it. */
  lemma MonthIdIsNotYearKey(userId: string, year: int, month: int)
    ensures MonthId(userId, year, month) != YearKey(userId, year)
  {
    assert |MonthId(userId, year, month)| > |YearKey(userId, year)|;
  }

  /** For one month of one year, the monthly entry id tells users apart:
      a recompute for one user never overwrites another user's entry. */
  lemma MonthIdDeterminesUser(u1: string, u2: string, year: int, month: int)
    requires MonthId(u1, year, month) == MonthId(u2, year, month)
    ensures u1 == u2
  {
    var id := MonthId(u1, year, month);
    assert |u1| == |u2| by {
      assert |id| == |u1| + 2 + |IntToString(year)| + |Pad2(month)|;
      assert |MonthId(u2, year, month)| == |u2| + 2 + |IntToString(year)| + |Pad2(month)|;
    }
    UserIsPrefix(u1, year, month);
    UserIsPrefix(u2, year, month);
  }

  /** The user id is the head of a monthly id. */
  lemma UserIsPrefix(u: string, year: int, month: int)
    ensures |u| <= |MonthId(u, year, month)| && MonthId(u, year, month)[..|u|] == u
  {
    var yk := YearKey(u, year);
    var withDash := yk + "-";
    var id := withDash + Pad2(month);
    assert id == MonthId(u, year, month);
    assert id[..|withDash|] == withDash;
    assert withDash[..|yk|] == yk;
    assert yk == (u + "-") + IntToString(year);
    assert yk[..|u| + 1] == u + "-";
    assert (u + "-")[..|u|] == u;
    assert id[..|u|] == id[..|withDash|][..|yk|][..|u| + 1][..|u|];
  }

  /** For one user and year, the monthly entry id tells months apart. */
  lemma MonthIdDeterminesMonth(userId: string, year: int, m1: int, m2: int)
    requires MonthId(userId, year, m1) == MonthId(userId, year, m2)
    ensures m1 == m2
  {
    var prefix := YearKey(userId, year) + "-";
    var id := MonthId(userId, year, m1);
    assert id == prefix + Pad2(m1) && MonthId(userId, year, m2) == prefix + Pad2(m2);
    assert Pad2(m1) == id[|prefix|..] == Pad2(m2);
    Pad2Injective(m1, m2);
  }

  // ---------------------------------------------------------------------
  // A year's payments

  function NotYearEntry(userId: string, year: int): Payment -> bool {
    (p: Payment) => p.id != YearKey(userId, year)
  }

  function AsPayments(s: seq<DBPayment>): (r: seq<Payment>)
    ensures |r| == |s|
    ensures forall i :: 0 <= i < |s| ==> r[i] == AsPayment(s[i])
  {
    seq(|s|, i requires 0 <= i < |s| => AsPayment(s[i]))
  }

  /** The payments `getPaymentsOfYear` returns for the fetched items: the
      user's entries keyed by the year (`res`) followed by those keyed by
      the bare user id (`yearRes`, the yearly entries of every year), less
      the one whose id is this year's yearly id. */
  function PaymentsOfYear(userId: string, year: int, res: seq<DBPayment>, yearRes: seq<DBPayment>): seq<Payment> {
    Filter(AsPayments(res + yearRes), NotYearEntry(userId, year))
  }

  function EntryNotYear(userId: string, year: int): DBPayment -> bool {
    (e: DBPayment) => e.id != YearKey(userId, year)
  }

  function PaymentAmount(p: Payment): int {
    p.amount
  }

  function EntryAmount(e: DBPayment): int {
    e.amount
  }

  /** Converting to client payments keeps ids and amounts, so the filtered
      sum can be taken over the stored entries. */
  lemma {:induction false} PaymentsOfYearSum(userId: string, year: int, s: seq<DBPayment>)
    ensures Sum(Filter(AsPayments(s), NotYearEntry(userId, year)), PaymentAmount)
         == Sum(Filter(s, EntryNotYear(userId, year)), EntryAmount)
    decreases |s|
  {
    if s != [] {
      assert AsPayments(s)[1..] == AsPayments(s[1..]);
      PaymentsOfYearSum(userId, year, s[1..]);
    }
  }
}
