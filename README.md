# Billing engine of the meal-registration service, in Dafny

The service records, per person and day, what was eaten at lunch, coffee and
dinner. It bills those meals against price rules that each cover one slot
over a date range, with prices for three tiers (normal, young, child). This
project models the billing core of `handler.ts`:

- the **day pricer** `getPriceByFood`. It counts the meals of one slot per
  tier, picks the price rule in effect (a special rule overrides the
  ordinary ones) and returns the weighted sum.
- the **month aggregator** `privMonthUpdate`. It sums the day pricer over
  the month and builds the monthly payment entry `-total`. It is reached
  through `updateMonthByUserId` and through the bulk `updateMonthsByMonth`.
  Both first filter the year's rules down to the month, and the bulk path
  also groups registrations by user.
- the **year aggregator** `updateYearByUserId`, over what `getPaymentsOfYear`
  fetched.
- the **month enumerator** `getMonthYearPairs`.
- the **record builders** `regs.createFromDay`, `payments.create.ind/month/year`,
  `payments.asPayment`, `user.checkProfile` and `user.createNew`.
- the **registration views** `allDays` and `getAllByDay`.

Storage reads become parameters: the fetched rules, registrations and
payments. Each file is one part of the source:

- `js.dfy`: the JavaScript behaviour the code relies on. This covers
  template-literal printing of integers, the `x < 10 ? "0" + x : x` padding,
  `split`, `Number(...)` on a piece of a date, string `<`, `Math.floor`
  division and the truncating `%`.
- `calendar.dfy`: `new Date(y, m + 1, 0).getDate()`.
- `types.dfy`: the record types.
- `seqs.dfy`: `filter`/`reduce` and the sums they are proved against.
- the rest follows the source's objects: `day_pricer.dfy`, `regs.dfy`,
  `payments.dfy`, `payment_updates.dfy`, `users.dfy`, `month_pairs.dfy`.

Conventions kept as the source has them:

- `month` is 0-based throughout. Dates compared with the rules print
  `month + 1`. The monthly entry prints the 0-based month in its id and its
  date, so `asPayment` reads January's monthly entry back as month 0 and a
  user's January payment as month 1.
- The keys of `createFromDay` are not padded.
- `getMonthYearPairs` reads only the year and month pieces of each date. It
  returns nothing when the year or month piece of either date is missing or
  not a number, because `diff` is then `NaN`; the day piece is never read. With a month `00` its first month is
  `-1`, as JavaScript's `%` gives.

The yearly amount also counts the user's yearly entries of other years.
The model keeps this as written, although it is not what the billing
evidently means to do (see Findings).

## Model

| member | source | states |
|---|---|---|
| DayPricer.PriceByFood | handler.ts:770-839 | characterised by `PriceByFoodCharged` and `EmptyFoodIsFree` |
| DayPricer.TierCount | handler.ts:775-818 | characterised by `TierCountIsSum`, `AddSpecial` and `AddSpecialWithId` |
| DayPricer.SpecialsOfBase | handler.ts:777-788 | characterised by `SpecialsOfBaseIsSum` |
| DayPricer.Today | handler.ts:819-821 | characterised by `TodayOrdered` |
| DayPricer.TodayOrdered | handler.ts:819-824 | within a month the date strings of days 0..99 compare like the days, both ways |
| DayPricer.RightPrice | handler.ts:822-827 | a chosen rule is one of the rules and in effect for the slot on that day; nothing is chosen only when no rule is in effect (the full choice is `RightPriceIsRightChoice`) |
| DayPricer.TierCountIsSum | handler.ts:775-818 | a tier's count is its direct count (absent = 0) plus the counts of exactly the `special` and `specialIds` items whose base is that tier |
| DayPricer.SpecialsOfBaseIsSum | handler.ts:777-788 | the guarded per-tier `reduce` over a list equals the sum of counts of the items with that base |
| DayPricer.AddSpecial | handler.ts:777-782 | inserting a special meal anywhere in `special` adds its count to its own tier and nothing to the others |
| DayPricer.AddSpecialWithId | handler.ts:783-788 | the same for `specialIds` |
| DayPricer.RightPriceIsRightChoice | handler.ts:819-827 | no rule is chosen iff no rule has `start <= today <= end` for the slot. Otherwise the chosen rule is the first special candidate, or the first candidate when none is special, and it is that rule (both directions) |
| DayPricer.SpecialOverrides | handler.ts:825-827 | whenever a special rule is in effect, the chosen rule is special |
| DayPricer.PriceByFoodCharged | handler.ts:828-838 | with no rule in effect the cost is 0; with the chosen rule it is `normal*r.normal + young*r.young + child*r.child` |
| DayPricer.EmptyFoodIsFree | handler.ts:775-838 | a record with no counts and no special items costs 0 under any rules |
| PaymentUpdates.MonthTotalIsSum | handler.ts:840-847 | the month `total` is the sum over days of the lunch, coffee and dinner costs, absent slots adding 0, and it splits over concatenated day lists |
| PaymentUpdates.MonthTotalPermutation | handler.ts:840-847 | the month total does not depend on the order of the days |
| PaymentUpdates.MonthTotal | handler.ts:840-847 | characterised by `MonthTotalIsSum` and `MonthTotalPermutation` |
| PaymentUpdates.MonthLabel | handler.ts:854 | the label is the month's Finnish name and the year for months 0..11, and `Error` and the year exactly for the other months |
| PaymentUpdates.PrivMonthUpdate | handler.ts:848-856 | the monthly entry has amount exactly `-total`, id `${userId}-${year}-MM`, type month, query key `${userId}-${year}` and the month-name label |
| PaymentUpdates.OverlapsMonth | handler.ts:867-871 | characterised by `CandidateOverlapsMonth` and `RelPricesKeepRightPrice` |
| PaymentUpdates.RelPrices | handler.ts:867-871 | a rule is kept iff it is one of the year's rules and it starts before the next month and ends after the month's `YYYY-MM` |
| PaymentUpdates.CandidateOverlapsMonth | handler.ts:867-871 | a rule in effect on any day of the month passes the month filter |
| PaymentUpdates.RelPricesKeepRightPrice | handler.ts:867-871 | the month filter changes no day's choice of rule |
| PaymentUpdates.RelPricesKeepMonthTotal | handler.ts:887-891 | so the month total is the same with the filtered rules as with all the year's rules |
| PaymentUpdates.UpdateMonthByUserId | handler.ts:858-879 | the single-user path's monthly entry has the user's monthly id and charges minus the sum of the costs of the user's registrations under the month's rules |
| PaymentUpdates.MonthUsesYearRules | handler.ts:858-879 | for a month in 0..11 that amount is the same as under all the year's rules |
| PaymentUpdates.DaysSum | handler.ts:900-907 | turning registrations into days keeps each day's cost |
| PaymentUpdates.UserIds | handler.ts:892-893 | the group keys are pairwise distinct user ids |
| PaymentUpdates.UserIdsMembership | handler.ts:892-893 | a user id is a group key iff some registration has it |
| PaymentUpdates.UpdateMonthsByMonth | handler.ts:882-925 | one monthly entry per group key, each exactly the single-user entry for that user's group of registrations |
| PaymentUpdates.MonthEntriesDistinct | handler.ts:892-925 | the bulk entries have pairwise distinct ids, and their users are exactly the users with registrations |
| PaymentUpdates.GroupedSumIsSum | handler.ts:892-912 | summing per user group is summing over all registrations |
| PaymentUpdates.BulkChargesEveryRegistrationOnce | handler.ts:882-925 | the bulk entries together charge the cost of every registration of the month exactly once, under the month's rules |
| PaymentUpdates.UpdateYearByUserId | handler.ts:752-762 | the yearly entry has id `${userId}-${year}`, query key `userId`, date `${year}-12-31`, and amount the sum of all fetched entries except the one with the yearly id |
| PaymentUpdates.YearIgnoresOwnEntry | handler.ts:740-742 | the year's own stored yearly entry never changes the recomputed one |
| PaymentUpdates.YearRecomputeIsStable | handler.ts:752-762 | recomputing right after saving the yearly entry gives the same entry |
| PaymentUpdates.YearCountsEntry | handler.ts:737-742 | any other fetched entry adds exactly its amount |
| PaymentUpdates.YearCountsMonth | handler.ts:654-676 | a monthly entry of the year always adds its amount, since its id is never the yearly id |
| PaymentUpdates.YearCountsOtherYears | handler.ts:718-742 | a yearly entry of another year, fetched by the bare-user-id query, adds its amount too |
| PaymentUpdates.YearBalancesFeedEachOther | handler.ts:709-762 | recomputing one year, then another, then the first again changes the first year's balance with no new entry |
| PaymentUpdates.YearBalance | handler.ts:752-762 | corrected yearly entry: the sum of the year's own entries except the yearly id |
| PaymentUpdates.YearBalanceIsStable | handler.ts:752-762 | the corrected balance agrees with the source when no other year's entry is fetched, and saving and recomputing it changes nothing |
| Payments.CreateInd | handler.ts:634-653 | entry of type ind with the given amount, the query key `${userId}-${year}`, and the given id unless absent or empty, else the fresh one |
| Payments.CreateMonth | handler.ts:654-676 | entry of type month with id `${userId}-${year}-MM` of the 0-based month and query key `${userId}-${year}` |
| Payments.CreateYear | handler.ts:677-693 | entry of type year with id `${userId}-${year}` and query key `userId` |
| Payments.AsPayment | handler.ts:695-708 | the client payment keeps id, amount, name and type |
| Payments.AsPaymentOfInd | handler.ts:634-653 | a user's payment reads back with its year, `month + 1` and day |
| Payments.AsPaymentOfMonth | handler.ts:654-676 | a monthly entry reads back with its year, the 0-based month and the month's last day |
| Payments.AsPaymentOfYear | handler.ts:677-708 | a yearly entry reads back as (year, 12, 31) |
| Payments.MonthIdIsNotYearKey | handler.ts:663 | a monthly id is never the yearly id of the same user and year |
| Payments.MonthIdDeterminesUser | handler.ts:663 | equal monthly ids of one month mean the same user |
| Payments.MonthIdDeterminesMonth | handler.ts:663 | equal monthly ids of one user and year mean the same month |
| Payments.PaymentsOfYear | handler.ts:737-742 | characterised by `PaymentsOfYearSum` and, through it, `UpdateYearByUserId` |
| Payments.PaymentsOfYearSum | handler.ts:737-742 | summing the filtered client payments is summing the filtered stored entries |
| Calendar.LastDayOfMonth | handler.ts:661-667 | `new Date(year, month + 1, 0).getDate()` is between 28 and 31 |
| Calendar.DaysInMonth | handler.ts:661-667 | a Gregorian month has 28 to 31 days, February 29 exactly in leap years |
| Calendar.LastDayInYear | handler.ts:661-667 | for years outside 0..99 the last day is the month's Gregorian length |
| Calendar.LastDayCarries | handler.ts:661-667 | a month past December carries into the next year |
| Calendar.MonthsMakeYear | handler.ts:661-667 | the twelve months add up to the year's length |
| Regs.CountFromFoodIsTierSum | handler.ts:442-453 | `countFromFood` is the sum of the three tier counts the day pricer bills |
| Regs.CreateFromDayShape | handler.ts:441-469 | the month key is the unpadded `${year}-${month}`, the user-month key is the user id plus `-` plus the month key, and the day key is the user-month key plus `-${num}`; year, month, day and user are copied. The slot foods are the day's, and each slot total is its tier count sum, 0 when absent |
| Regs.CreatedKeysIdentify | handler.ts:453-455 | for non-negative numbers, two month keys are equal iff the (year, month) are, and for one user two user-month keys iff the (year, month) are and two day keys iff the (year, month, day) are |
| Regs.CreateFromDay | handler.ts:441-469 | characterised by `CreateFromDayShape` and `CreatedKeysIdentify` (keys) and `AllDaysOfCreated` (totals) |
| Regs.CountFromFood | handler.ts:442-451 | characterised by `CountFromFoodIsTierSum`: every meal of the record once, whatever its tier |
| Regs.AllDaysCount | handler.ts:538-546 | the count is at least each slot total (absent = 0) and equals one of them |
| Regs.AllDays | handler.ts:536-547 | one count per fetched registration, in order |
| Regs.AllDaysOfCreated | handler.ts:441-469 | for a registration built by `createFromDay`, the count is the busiest slot's number of meals |
| Regs.GetAllByDay | handler.ts:577-596 | each slot's list is the registrations with food in that slot, in order, as food plus user id |
| Regs.SlotFoodsSnoc | handler.ts:578-595 | one registration appends its food to exactly the lists of its present slots |
| Regs.SlotFoodsPartition | handler.ts:577-596 | a slot's list has one entry per registration with that slot, and holds exactly their foods and users |
| MonthPairs.GetMonthYearPairs | handler.ts:177-192 | the loop returns the list the specification function describes |
| MonthPairs.MonthYearPairs | handler.ts:177-192 | `diff + 1` pairs when `diff >= 0`, none otherwise or when the year or month piece of either date is missing or not a number |
| MonthPairs.Bounds | handler.ts:181-183 | the four numbers are read exactly when the first two pieces of each date are numbers |
| MonthPairs.PairAtIsLinear | handler.ts:185-189 | pair k is a month in 0..11, k months after the month before the start |
| MonthPairs.PairsAreConsecutive | handler.ts:184-190 | the first pair is the 0-based start month and each next pair is the month after |
| MonthPairs.LastPairIsEndMonth | handler.ts:184-190 | the last pair is the 0-based end month of the end year |
| MonthPairs.PairsCoverRange | handler.ts:184-190 | a pair is listed iff it is a month from the start month to the end month |
| MonthPairs.BoundsOfDates | handler.ts:181-182 | `YYYY-MM-DD` strings give back their years and months |
| Users.CheckProfile | handler.ts:249-256 | a profile with an id is kept as is; one with an empty id gets the fresh id, everything else kept |
| Users.CreateNew | handler.ts:257-278 | the user's profile map is the specification map, and the user id is the uuid drawn after all profiles |
| Users.StoredIdsArePresent | handler.ts:263-271 | every profile is in the map under the id it was stored with |
| Users.KeysAreStoredIds | handler.ts:263-271 | the map has no other keys |
| Users.LastStoredWins | handler.ts:263-271 | the map holds under an id the last profile stored with it |
| Users.ValuesCarryKeys | handler.ts:263-271 | each stored profile's id is its key |
| Users.ProfilesKeyedById | handler.ts:263-271 | a profile given an id is found under it, and as given unless a later one reuses the id |
| Users.NoIdProfilesDrawInOrder | handler.ts:266-269 | the profiles without an id draw uuids in order, before the user's own |
| Js.Split | handler.ts:696 | at least one piece, none holding the separator; `SplitJoin3` gives the pieces of a date |
| Js.NumberOf | handler.ts:696 | never `undefined`, and a number read is non-negative; `NumberOfIntToString` and `NumberOfPad2` read printed values back |
| Js.IntToString | handler.ts:643-645 | characterised by `NumberOfIntToString`, `IntToStringDash` and `IntToStringInjective` |
| Js.NumberOfIntToString | handler.ts:643-696 | `Number` of a printed non-negative integer is that integer, and the print has no dash |
| Js.IntToStringInjective | handler.ts:453-455 | different integers print differently |
| Js.SeparatorJoinInjective | handler.ts:453-455 | joins at a separator with separator-free heads are equal only with equal heads and tails |
| Js.Pad2 | handler.ts:643-645 | characterised by `NumberOfPad2`, `Pad2Ordered` and `Pad2Injective` |
| Js.Lt | handler.ts:823 | characterised by `LtIrreflexive`, `LtTrichotomy`, `LtTransitive` and `LtCommonPrefix`: a strict total order |
| Js.Le | handler.ts:823 | characterised by `LeIsLtOrEq`: `a <= b` iff `a < b` or `a == b` |
| Js.LtTrichotomy | handler.ts:823 | exactly one of `a < b`, `a == b`, `b < a` |
| Js.LtCommonPrefix | handler.ts:819-824 | a common prefix does not change the comparison |
| Js.NumberAt | handler.ts:696 | a missing piece is `undefined` |
| Js.NumberOfPad2 | handler.ts:643-696 | a padded number reads back as itself |
| Js.SplitJoin3 | handler.ts:696 | splitting `a-b-c` with dash-free parts gives the parts |
| Js.Pad2Ordered | handler.ts:819-821 | padded numbers below 100 compare as strings like numbers |
| Js.TruncRem | handler.ts:188 | JavaScript's `%` lies strictly between `-b` and `b`, equals Dafny's `%` on non-negative operands, is never positive for a negative one, and is congruent to the dividend modulo `b` (so `-1 % 12` is `-1`) |
| Js.FloorDiv | handler.ts:187 | `Math.floor(a / b)` is the floor |

## Left out

- Storage access: every `put`, `get`, `query`, `scan` and `update`. The fetched items are parameters.
- The rule fetch `price.getByYear` and the user-month and month registration queries. The model takes their results as given.
- The Lambda handlers, the response builders and `ts`/`Date.now()`.
- `async`/`Promise.all`: sequencing and concurrency are not modelled.
- PaymentUpdates.UpdateMonthByUserId: stops at the monthly entry; the yearly recompute `updateYearByUserId(userId, year)` that ends the source function (handler.ts:880) runs on freshly fetched payments and is modelled on its own as `UpdateYearByUserId`.
- PaymentUpdates.UpdateMonthsByMonth: likewise leaves out the per-user yearly recompute after each save (handler.ts:922).
- The price-rule handler that calls `updateMonthsByMonth` for every month pair (handler.ts:1034-1036) is not modelled. So the model does not show that it recomputes a user's year once per month recomputed, not once per user.
- `console.log`.
- `uuid()`. `user.createNew` takes it as the function `uuids`, its k-th call giving `uuids(k)`. `create.ind` and `checkProfile` take one fresh id as a parameter.
- The defaults of `createNew` (`archievedBalance = 0`, no profiles): callers pass them.
- `auth.ts`.
- Amounts and prices are integers, not IEEE doubles. Rounding of fractional prices is not modelled.
- `Number(...)` reads only the empty string (0) and digit strings. It gives NaN for anything else, including signs, spaces, decimals and exponents.
- String `<` compares characters. JavaScript compares UTF-16 code units, which differs only outside the Basic Multilingual Plane.
- `new Date` is modelled as the proleptic Gregorian calendar with the two-digit-year rule. The range limits of `Date` and time zones are left out.
- `Object.keys` puts integer-like keys first in numeric order. The model lists user ids by first appearance, which is what it does for ids that are not integer-like.
- Optional lists `special` and `specialIds` are sequences: absent and empty are one case, as the code treats them.
- Falsy-count tests (`food.normal ? food.normal : 0`, `totals.lunch || 0`) are modelled on integers, where they mean absent-or-0. NaN counts are not modelled.

## Findings

| source | as written | input that shows it | evidently intended | confidence | as-written member | corrected member |
|---|---|---|---|---|---|---|
| handler.ts:752-762 | the yearly amount sums every item `getPaymentsOfYear` fetched, and its second query (key `userId`) returns the user's yearly entries of all years | a user with no entries in year Y and one monthly charge a ≠ 0 in year Z: recompute Y (balance 0), then Z (a), then Y again, which gives a though nothing in Y changed | the yearly entry is the sum of the individual and monthly entries of that year only | medium, not executed | PaymentUpdates.YearBalancesFeedEachOther | PaymentUpdates.YearBalanceIsStable |
