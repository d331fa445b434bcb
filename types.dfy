/** The record shapes of the meal-registration service (handler.ts,
    lines 9-160). Optional numbers are `Option<int>`; the optional lists
    `special` and `specialIds` are sequences, an absent list being the
    empty one (every computation on them treats the two alike). Amounts
    and prices are integers, read as cents. */
module Types {
  import opened Js

  /** The meal slots a day has: `fod` of a price rule. */
  datatype Slot = Lunch | Coffee | Dinner

  /** The pricing tiers of a person: the `base` of a special meal. */
  datatype Category = Normal | Young | Child

  /** A special (allergy) meal, billed at its `base` tier. */
  datatype SpecialFood = SpecialFood(base: Category, count: int, allergies: seq<string>)

  /** A special meal chosen from a stored allergy profile. */
  datatype SpecialFoodWithId = SpecialFoodWithId(
    specialId: string, base: Category, count: int, allergies: seq<string>, name: string)

  /** What one person ate in one slot of one day. */
  datatype Food = Food(
    normal: Option<int>,
    young: Option<int>,
    child: Option<int>,
    specialIds: seq<SpecialFoodWithId>,
    special: seq<SpecialFood>)

  /** The food of one day of a month, slot by slot. */
  datatype Day = Day(num: int, lunch: Option<Food>, coffee: Option<Food>, dinner: Option<Food>)

  /** Head counts stored with a registration, one per slot. */
  datatype Totals = Totals(lunch: Option<int>, coffee: Option<int>, dinner: Option<int>)

  /** A stored registration: one person, one day, with its three lookup keys. */
  datatype DBDay = DBDay(
    userIdYearMonthDay: string,
    userIdYearMonth: string,
    yearMonth: string,
    year: int,
    month: int,
    day: int,
    userId: string,
    lunch: Option<Food>,
    coffee: Option<Food>,
    dinner: Option<Food>,
    totals: Totals)

  /** A price rule: prices per tier for one slot between two dates
      (`YYYY-MM-DD` strings, both inclusive). */
  datatype Price = Price(
    id: string,
    fod: Slot,
    start: string,
    end: string,
    normal: int,
    young: int,
    child: int,
    special: bool,
    time: string,
    name: Option<string>)

  datatype PaymentType = Ind | Month | Year

  /** A stored payment entry. `userQueryKey` is `user-query-key`. */
  datatype DBPayment = DBPayment(
    date: string,
    amount: int,
    id: string,
    userQueryKey: string,
    userId: string,
    year: int,
    ptype: PaymentType,
    name: string)

  /** A calendar day as the client sends it. */
  datatype DateDay = DateDay(year: int, month: int, day: int)

  /** The date of a payment as read back from its stored string. */
  datatype PaymentDate = PaymentDate(year: JsNumber, month: JsNumber, day: JsNumber)

  /** A payment as returned to the client. */
  datatype Payment = Payment(id: string, amount: int, name: string, ptype: PaymentType, date: PaymentDate)

  datatype AllergyProfile = AllergyProfile(id: string, name: Option<string>, allergies: seq<string>)

  /** A new user with its allergy profiles keyed by profile id. */
  datatype RespIndUser = RespIndUser(
    id: string, name: string, archievedBalance: int, profiles: map<string, AllergyProfile>)

  /** One person's food in one slot, as the kitchen view lists it. */
  datatype UserFood = UserFood(food: Food, userId: string)

  /** Everything registered for one day, split by slot. */
  datatype KitchenDay = KitchenDay(
    year: int, month: int, day: int, lunch: seq<UserFood>, coffee: seq<UserFood>, dinner: seq<UserFood>)

  /** The food of a day in the given slot. */
  function DayFood(d: Day, slot: Slot): Option<Food> {
    match slot
    case Lunch => d.lunch
    case Coffee => d.coffee
    case Dinner => d.dinner
  }

  /** The food of a registration in the given slot. */
  function RegFood(r: DBDay, slot: Slot): Option<Food> {
    match slot
    case Lunch => r.lunch
    case Coffee => r.coffee
    case Dinner => r.dinner
  }

  /** The direct count of a tier in a food record. */
  function DirectCount(f: Food, c: Category): Option<int> {
    match c
    case Normal => f.normal
    case Young => f.young
    case Child => f.child
  }

  /** A special meal chosen from a profile, as far as counting is concerned. */
  function Untagged(items: seq<SpecialFoodWithId>): (r: seq<SpecialFood>)
    ensures |r| == |items|
    ensures forall i :: 0 <= i < |items| ==> r[i].base == items[i].base && r[i].count == items[i].count
  {
    seq(|items|, i requires 0 <= i < |items| => SpecialFood(items[i].base, items[i].count, items[i].allergies))
  }
}
