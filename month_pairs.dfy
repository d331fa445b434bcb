/** `getMonthYearPairs` (handler.ts, lines 177-192): the (year, 0-based
    month) pairs a price rule's `start`..`end` range touches, found by
    splitting both date strings at the dashes and counting months. */
module MonthPairs {
  import opened Js

  datatype YearMonth = YearMonth(year: int, month: int)

  /** Years and 1-based months read from the two date strings. */
  datatype Range = Range(sy: int, sm: int, ey: int, em: int)

  /** The four numbers the loop uses, or `None` when one of them is `NaN`
      or missing: `diff` is then `NaN` and the loop does not run. */
  function Bounds(start: string, end: string): (b: Option<Range>)
    ensures b.Some? <==>
      NumberAt(Split(start, '-'), 0).Num? && NumberAt(Split(start, '-'), 1).Num?
      && NumberAt(Split(end, '-'), 0).Num? && NumberAt(Split(end, '-'), 1).Num?
  {
    var sps, spe := Split(start, '-'), Split(end, '-');
    match (NumberAt(sps, 0), NumberAt(sps, 1), NumberAt(spe, 0), NumberAt(spe, 1))
    case (Num(sy), Num(sm), Num(ey), Num(em)) => Some(Range(sy, sm, ey, em))
    case _ => None
  }

  /** `(spe[0] - sps[0]) * 12 + (spe[1] - sps[1])` */
  function Diff(r: Range): int {
    (r.ey - r.sy) * 12 + (r.em - r.sm)
  }

  /** The pair pushed in round k (loop counter `i = k - 1`): year
      `sps[0] + Math.floor((i + sps[1]) / 12)`, month `(sps[1] + i) % 12`. */
  function PairAt(r: Range, k: int): YearMonth {
    YearMonth(r.sy + FloorDiv(r.sm - 1 + k, 12), TruncRem(r.sm - 1 + k, 12))
  }

  /** What `getMonthYearPairs` returns: one pair per month from the start
      month to the end month, none when the end comes first. */
  function MonthYearPairs(start: string, end: string): (res: seq<YearMonth>)
    ensures Bounds(start, end).None? ==> res == []
    ensures Bounds(start, end).Some? ==>
      |res| == (if Diff(Bounds(start, end).value) >= 0 then Diff(Bounds(start, end).value) + 1 else 0)
  {
    match Bounds(start, end)
    case None => []
    case Some(r) =>
      var n := if Diff(r) >= 0 then Diff(r) + 1 else 0;
      seq(n, k requires 0 <= k < n => PairAt(r, k))
  }

  /** The counting `for` loop from `i = -1` while `i < diff`. */
  method GetMonthYearPairs(start: string, end: string) returns (res: seq<YearMonth>)
    ensures res == MonthYearPairs(start, end)
  {
    res := [];
    var b := Bounds(start, end);
    if b.None? {
      return;
    }
    var r := b.value;
    var diff := Diff(r);
    ghost var n := if diff >= 0 then diff + 1 else 0;
    var i := -1;
    while i < diff
      invariant -1 <= i && i + 1 <= n
      invariant |res| == i + 1
      invariant forall k :: 0 <= k < |res| ==> res[k] == PairAt(r, k)
      decreases diff - i
    {
      var pair := YearMonth(r.sy + FloorDiv(i + r.sm, 12), TruncRem(r.sm + i, 12));
      assert pair == PairAt(r, i + 1);
      res := res + [pair];
      i := i + 1;
    }
    assert |res| == n;
    assert MonthYearPairs(start, end) == seq(n, k requires 0 <= k < n => PairAt(r, k));
  }

  /** The month after a given one. */
  function NextMonth(ym: YearMonth): YearMonth {
    if ym.month == 11 then YearMonth(ym.year + 1, 0) else YearMonth(ym.year, ym.month + 1)
  }

  /** Round k lies k months after the month before the start month. */
  lemma PairAtIsLinear(r: Range, k: int)
    requires r.sm >= 1 && k >= 0
    ensures 0 <= PairAt(r, k).month < 12
    ensures PairAt(r, k).year * 12 + PairAt(r, k).month == r.sy * 12 + r.sm - 1 + k
  {
    var a := r.sm - 1 + k;
    assert a == FloorDiv(a, 12) * 12 + a % 12;
  }

  lemma LinearIsPairAt(r: Range, k: int, ym: YearMonth)
    requires r.sm >= 1 && k >= 0
    requires 0 <= ym.month < 12 && ym.year * 12 + ym.month == r.sy * 12 + r.sm - 1 + k
    ensures ym == PairAt(r, k)
  {
    PairAtIsLinear(r, k);
    var p := PairAt(r, k);
    assert (ym.year - p.year) * 12 == p.month - ym.month;
  }

  /** With a valid start month, the pairs are consecutive months, the first
      being the start month (0-based) of the start year. */
  lemma PairsAreConsecutive(start: string, end: string)
    requires Bounds(start, end).Some? && 1 <= Bounds(start, end).value.sm <= 12
    ensures var res := MonthYearPairs(start, end);
      && (|res| > 0 ==> res[0] == YearMonth(Bounds(start, end).value.sy, Bounds(start, end).value.sm - 1))
      && (forall k :: 0 <= k < |res| ==> 0 <= res[k].month < 12)
      && (forall k :: 0 <= k < |res| - 1 ==> res[k + 1] == NextMonth(res[k]))
  {
    var r := Bounds(start, end).value;
    var res := MonthYearPairs(start, end);
    if |res| > 0 {
      PairAtIsLinear(r, 0);
      LinearIsPairAt(r, 0, YearMonth(r.sy, r.sm - 1));
    }
    forall k | 0 <= k < |res|
      ensures 0 <= res[k].month < 12
    {
      PairAtIsLinear(r, k);
    }
    forall k | 0 <= k < |res| - 1
      ensures res[k + 1] == NextMonth(res[k])
    {
      PairAtIsLinear(r, k);
      PairAtIsLinear(r, k + 1);
      var n := NextMonth(res[k]);
      assert n.year * 12 + n.month == r.sy * 12 + r.sm - 1 + k + 1;
      LinearIsPairAt(r, k + 1, n);
    }
  }

  /** With valid months at both ends and the end not before the start, the
      last pair is the end month (0-based) of the end year. */
  lemma LastPairIsEndMonth(start: string, end: string)
    requires Bounds(start, end).Some?
    requires 1 <= Bounds(start, end).value.sm && 1 <= Bounds(start, end).value.em <= 12
    requires Diff(Bounds(start, end).value) >= 0
    ensures var res := MonthYearPairs(start, end);
      |res| > 0 && res[|res| - 1] == YearMonth(Bounds(start, end).value.ey, Bounds(start, end).value.em - 1)
  {
    var r := Bounds(start, end).value;
    LinearIsPairAt(r, Diff(r), YearMonth(r.ey, r.em - 1));
  }

  /** With valid months at both ends, a pair is listed exactly when it is a
      month between the start month and the end month, both included. */
  lemma PairsCoverRange(start: string, end: string, ym: YearMonth)
    requires Bounds(start, end).Some?
    requires 1 <= Bounds(start, end).value.sm && 1 <= Bounds(start, end).value.em <= 12
    ensures var r := Bounds(start, end).value;
      ym in MonthYearPairs(start, end) <==>
        && 0 <= ym.month < 12
        && r.sy * 12 + r.sm - 1 <= ym.year * 12 + ym.month <= r.ey * 12 + r.em - 1
  {
    var r := Bounds(start, end).value;
    var res := MonthYearPairs(start, end);
    if ym in res {
      var k :| 0 <= k < |res| && res[k] == ym;
      PairAtIsLinear(r, k);
    }
    if 0 <= ym.month < 12 && r.sy * 12 + r.sm - 1 <= ym.year * 12 + ym.month <= r.ey * 12 + r.em - 1 {
      var k := ym.year * 12 + ym.month - (r.sy * 12 + r.sm - 1);
      LinearIsPairAt(r, k, ym);
      assert res[k] == ym;
    }
  }

  /** Dates written `YYYY-MM-DD` with non-negative numbers give their own
      years and months to the loop. */
  lemma BoundsOfDates(y1: int, m1: int, d1: int, y2: int, m2: int, d2: int)
    requires y1 >= 0 && m1 >= 0 && d1 >= 0 && y2 >= 0 && m2 >= 0 && d2 >= 0
    ensures Bounds(IntToString(y1) + "-" + Pad2(m1) + "-" + Pad2(d1),
                   IntToString(y2) + "-" + Pad2(m2) + "-" + Pad2(d2))
         == Some(Range(y1, m1, y2, m2))
  {
    NumberOfIntToString(y1);
    NumberOfIntToString(y2);
    NumberOfPad2(m1);
    NumberOfPad2(m2);
    NumberOfPad2(d1);
    NumberOfPad2(d2);
    SplitJoin3(IntToString(y1), Pad2(m1), Pad2(d1), '-');
    SplitJoin3(IntToString(y2), Pad2(m2), Pad2(d2), '-');
  }
}
