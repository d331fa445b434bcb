/** The small part of JavaScript's value semantics that the billing engine
    relies on: optional values, `Number(...)` on date fields, template-string
    printing of integers, the two-digit zero padding used in dates and ids,
    `String.prototype.split`, and the `<` / `<=` comparison of strings. */
module Js {

  datatype Option<T> = None | Some(value: T)

  /** `x || 0` and `x ? x : 0` on an optional number. */
  function OrZero(x: Option<int>): int {
    match x
    case Some(n) => n
    case None => 0
  }

  /** A JavaScript number as the billing code can see it: an integer, NaN,
      or `undefined` (an index past the end of an array). */
  datatype JsNumber = Num(n: int) | NaN | Undefined

  // ---------------------------------------------------------------------
  // Printing integers: `${n}`

  function DigitChar(d: int): (c: char)
    requires 0 <= d < 10
    ensures '0' <= c <= '9'
    ensures c as int - '0' as int == d
  {
    ('0' as int + d) as char
  }

  predicate IsDigit(c: char) {
    '0' <= c <= '9'
  }

  predicate AllDigits(s: string) {
    forall i :: 0 <= i < |s| ==> IsDigit(s[i])
  }

  /** Decimal digits of a natural number, without leading zeros. */
  function NatToString(n: nat): (s: string)
    decreases n
  {
    if n < 10 then [DigitChar(n)] else NatToString(n / 10) + [DigitChar(n % 10)]
  }

  /** Template-string printing of an integer: `${n}`. */
  function IntToString(n: int): string {
    if n < 0 then "-" + NatToString(-n) else NatToString(n)
  }

  /** The zero padding used for months and days in dates and ids:
      `n < 10 ? `0${n}` : n`. A negative n is padded as well. */
  function Pad2(n: int): string {
    if n < 10 then "0" + IntToString(n) else IntToString(n)
  }

  /** The value of a string of decimal digits. */
  function DigitsValue(s: string): nat
    requires AllDigits(s)
  {
    if s == [] then 0 else DigitsValue(s[..|s| - 1]) * 10 + (s[|s| - 1] as int - '0' as int)
  }

  /** `Number(s)` for the strings that occur between the dashes of a date:
      the empty string is 0, a run of decimal digits is its value, anything
      else is NaN. */
  function NumberOf(s: string): (r: JsNumber)
    ensures r != Undefined
    ensures r.Num? ==> r.n >= 0
  {
    if AllDigits(s) then Num(DigitsValue(s)) else NaN
  }

  /** `s.split("-").map(Number)[i]`: the i-th piece read as a number, or
      undefined past the end. */
  function NumberAt(parts: seq<string>, i: nat): (r: JsNumber)
    ensures r == Undefined <==> i >= |parts|
  {
    if i < |parts| then NumberOf(parts[i]) else Undefined
  }

  lemma {:induction false} NatToStringDigits(n: nat)
    ensures |NatToString(n)| >= 1
    ensures AllDigits(NatToString(n))
    ensures DigitsValue(NatToString(n)) == n
    decreases n
  {
    var s := NatToString(n);
    if n >= 10 {
      NatToStringDigits(n / 10);
      assert s[..|s| - 1] == NatToString(n / 10);
    }
  }

  /** A leading zero does not change the value `Number` reads. */
  lemma LeadingZeroValue(s: string)
    requires AllDigits(s)
    ensures AllDigits("0" + s) && DigitsValue("0" + s) == DigitsValue(s)
    decreases |s|
  {
    if s != [] {
      var t := "0" + s;
      assert t[..|t| - 1] == "0" + s[..|s| - 1];
      LeadingZeroValue(s[..|s| - 1]);
    }
  }

  /** Reading back what `${n}` printed. */
  lemma NumberOfIntToString(n: int)
    requires n >= 0
    ensures NumberOf(IntToString(n)) == Num(n)
    ensures '-' !in IntToString(n)
  {
    NatToStringDigits(n);
  }

  /** Reading back a padded month or day. */
  lemma NumberOfPad2(n: int)
    requires n >= 0
    ensures NumberOf(Pad2(n)) == Num(n)
    ensures '-' !in Pad2(n)
  {
    NatToStringDigits(n);
    if n < 10 {
      LeadingZeroValue(IntToString(n));
    }
  }

  /** A padded value between 0 and 99 is exactly two digits. */
  lemma Pad2TwoDigits(n: int)
    requires 0 <= n < 100
    ensures Pad2(n) == [DigitChar(n / 10), DigitChar(n % 10)]
  {
    if n >= 10 {
      assert NatToString(n / 10) == [DigitChar(n / 10)];
    }
  }

  /** An integer prints without any dash exactly when it is not negative. */
  lemma IntToStringDash(n: int)
    ensures '-' in IntToString(n) <==> n < 0
  {
    NatToStringDigits(if n < 0 then -n else n);
    if n < 0 {
      assert IntToString(n)[0] == '-';
    }
  }

  /** Different integers print differently. */
  lemma {:induction false} NatToStringInjective(a: nat, b: nat)
    requires NatToString(a) == NatToString(b)
    ensures a == b
  {
    NatToStringDigits(a);
    NatToStringDigits(b);
  }

  lemma IntToStringInjective(a: int, b: int)
    requires IntToString(a) == IntToString(b)
    ensures a == b
  {
    IntToStringDash(a);
    IntToStringDash(b);
    if a < 0 && b < 0 {
      assert IntToString(a)[1..] == NatToString(-a);
      assert IntToString(b)[1..] == NatToString(-b);
      NatToStringInjective(-a, -b);
    } else if a >= 0 && b >= 0 {
      NatToStringInjective(a, b);
    }
  }

  /** Different integers pad differently. */
  lemma Pad2Injective(a: int, b: int)
    requires Pad2(a) == Pad2(b)
    ensures a == b
  {
    if a < 10 && b < 10 {
      assert Pad2(a)[1..] == IntToString(a);
      assert Pad2(b)[1..] == IntToString(b);
      IntToStringInjective(a, b);
    } else if a >= 10 && b >= 10 {
      IntToStringInjective(a, b);
    } else {
      var big := if a >= 10 then a else b;
      var n: nat := big;
      NatToStringDigits(n);
      assert NatToString(n)[0] != '0' by {
        LeadingDigitNonZero(n);
      }
    }
  }

  lemma {:induction false} LeadingDigitNonZero(n: nat)
    requires n >= 1
    ensures NatToString(n)[0] != '0'
    decreases n
  {
    if n >= 10 {
      NatToStringDigits(n / 10);
      LeadingDigitNonZero(n / 10);
    }
  }

  // ---------------------------------------------------------------------
  // s.split(sep)

  /** `s.split(sep)`: the pieces between the separators, in order; the
      empty string splits into one empty piece. */
  function Split(s: string, sep: char): (r: seq<string>)
    ensures |r| >= 1
    ensures forall i :: 0 <= i < |r| ==> sep !in r[i]
    decreases |s|
  {
    if s == [] then [""]
    else
      var rest := Split(s[1..], sep);
      if s[0] == sep then [""] + rest
      else [[s[0]] + rest[0]] + rest[1..]
  }

  /** Splitting a piece without separators followed by a separator and a tail. */
  lemma {:induction false} SplitCons(a: string, b: string, sep: char)
    requires sep !in a
    ensures Split(a + [sep] + b, sep) == [a] + Split(b, sep)
    decreases |a|
  {
    if a == [] {
      assert a + [sep] + b == [sep] + b;
      assert ([sep] + b)[1..] == b;
    } else {
      SplitCons(a[1..], b, sep);
      assert (a + [sep] + b)[1..] == a[1..] + [sep] + b;
      assert [a[0]] + a[1..] == a;
    }
  }

  /** A piece without separators splits into itself. */
  lemma {:induction false} SplitNone(a: string, sep: char)
    requires sep !in a
    ensures Split(a, sep) == [a]
    decreases |a|
  {
    if a != [] {
      SplitNone(a[1..], sep);
      assert [a[0]] + a[1..] == a;
    }
  }

  /** Three separator-free pieces joined by the separator split back into
      those three pieces. */
  lemma SplitJoin3(a: string, b: string, c: string, sep: char)
    requires sep !in a && sep !in b && sep !in c
    ensures Split(a + [sep] + b + [sep] + c, sep) == [a, b, c]
  {
    SplitNone(c, sep);
    SplitCons(b, c, sep);
    assert a + [sep] + b + [sep] + c == a + [sep] + (b + [sep] + c);
    SplitCons(a, b + [sep] + c, sep);
  }

  /** Joining at a separator is undone at the first separator: when the
      heads have no separator, equal joins have equal heads and tails. */
  lemma SeparatorJoinInjective(a: string, b: string, c: string, d: string, sep: char)
    requires sep !in a && sep !in c
    requires a + [sep] + b == c + [sep] + d
    ensures a == c && b == d
  {
    SplitCons(a, b, sep);
    SplitCons(c, d, sep);
    assert a == ([a] + Split(b, sep))[0] == ([c] + Split(d, sep))[0] == c;
    var s := a + [sep] + b;
    assert b == s[|a| + 1..] && d == s[|c| + 1..];
  }

  /** A common head does not change whether two strings are equal. */
  lemma CommonHead(h: string, a: string, b: string)
    ensures h + a == h + b <==> a == b
  {
    if h + a == h + b {
      assert a == (h + a)[|h|..] && b == (h + b)[|h|..];
    }
  }

  // ---------------------------------------------------------------------
  // String comparison: a < b, a <= b, a >= b, a > b

  /** `a < b` on strings: lexicographic on characters, a proper prefix
      being smaller. */
  predicate Lt(a: string, b: string)
    decreases |a|
  {
    if a == [] then b != []
    else if b == [] then false
    else if a[0] != b[0] then a[0] < b[0]
    else Lt(a[1..], b[1..])
  }

  /** `a <= b` on strings, which JavaScript defines as `!(b < a)`. */
  predicate Le(a: string, b: string) {
    !Lt(b, a)
  }

  lemma {:induction false} LtIrreflexive(a: string)
    ensures !Lt(a, a)
    decreases |a|
  {
    if a != [] {
      LtIrreflexive(a[1..]);
    }
  }

  lemma {:induction false} LtTrichotomy(a: string, b: string)
    ensures Lt(a, b) || a == b || Lt(b, a)
    ensures !(Lt(a, b) && Lt(b, a))
    decreases |a|
  {
    if a != [] && b != [] && a[0] == b[0] {
      LtTrichotomy(a[1..], b[1..]);
      if a[1..] == b[1..] {
        assert a == [a[0]] + a[1..] && b == [b[0]] + b[1..];
      }
    }
  }

  lemma {:induction false} LtTransitive(a: string, b: string, c: string)
    requires Lt(a, b) && Lt(b, c)
    ensures Lt(a, c)
    decreases |a|
  {
    if a != [] && b != [] && c != [] && a[0] == b[0] == c[0] {
      LtTransitive(a[1..], b[1..], c[1..]);
    }
  }

  /** `a <= b` holds exactly when a < b or a == b. */
  lemma LeIsLtOrEq(a: string, b: string)
    ensures Le(a, b) <==> Lt(a, b) || a == b
  {
    LtTrichotomy(a, b);
    LtIrreflexive(a);
  }

  lemma LeLtTransitive(a: string, b: string, c: string)
    requires Le(a, b) && Lt(b, c)
    ensures Lt(a, c)
  {
    LeIsLtOrEq(a, b);
    if a != b {
      LtTransitive(a, b, c);
    }
  }

  lemma LtLeTransitive(a: string, b: string, c: string)
    requires Lt(a, b) && Le(b, c)
    ensures Lt(a, c)
  {
    LeIsLtOrEq(b, c);
    if b != c {
      LtTransitive(a, b, c);
    }
  }

  /** A common prefix does not change the comparison. */
  lemma {:induction false} LtCommonPrefix(p: string, a: string, b: string)
    ensures Lt(p + a, p + b) <==> Lt(a, b)
    decreases |p|
  {
    if p != [] {
      var pa, pb := p + a, p + b;
      assert pa != [] && pb != [] && pa[0] == pb[0];
      assert pa[1..] == p[1..] + a;
      assert pb[1..] == p[1..] + b;
      assert Lt(pa, pb) == Lt(pa[1..], pb[1..]);
      LtCommonPrefix(p[1..], a, b);
    } else {
      assert p + a == a && p + b == b;
    }
  }

  /** A string is below every proper extension of itself. */
  lemma {:induction false} LtProperPrefix(p: string, r: string)
    requires r != []
    ensures Lt(p, p + r)
    decreases |p|
  {
    if p != [] {
      assert (p + r)[1..] == p[1..] + r;
      LtProperPrefix(p[1..], r);
    }
  }

  /** Once two strings of equal length differ, whatever follows them does
      not matter. */
  lemma {:induction false} LtEqualLengthExtend(x: string, y: string, r: string, s: string)
    requires |x| == |y| && Lt(x, y)
    ensures Lt(x + r, y + s)
    decreases |x|
  {
    assert x != [];
    if x[0] == y[0] {
      assert (x + r)[1..] == x[1..] + r;
      assert (y + s)[1..] == y[1..] + s;
      LtEqualLengthExtend(x[1..], y[1..], r, s);
    }
  }

  /** Two-digit padding orders like the numbers it prints. */
  lemma Pad2Ordered(a: int, b: int)
    requires 0 <= a < b < 100
    ensures |Pad2(a)| == 2 && |Pad2(b)| == 2
    ensures Lt(Pad2(a), Pad2(b))
  {
    Pad2TwoDigits(a);
    Pad2TwoDigits(b);
    if a / 10 == b / 10 {
      assert a % 10 < b % 10;
    } else {
      assert a / 10 < b / 10;
    }
  }

  // ---------------------------------------------------------------------
  // Arithmetic

  /** `Math.floor(a / b)` for a positive divisor. */
  function FloorDiv(a: int, b: int): (q: int)
    requires b > 0
    ensures q * b <= a < q * b + b
  {
    a / b
  }

  /** JavaScript's `a % b` for a positive divisor: the remainder takes the
      sign of the dividend, `-((-a) % b)` for a negative one. It is congruent
      to `a` modulo `b`, which with the bounds and the sign fixes it. */
  function TruncRem(a: int, b: int): (r: int)
    requires b > 0
    ensures -b < r < b
    ensures a >= 0 ==> r == a % b
    ensures a < 0 ==> r <= 0
    ensures r == a % b || r == a % b - b
  {
    if a >= 0 then a % b else if a % b == 0 then 0 else a % b - b
  }

  function Max(a: int, b: int): (m: int)
    ensures m >= a && m >= b
    ensures m == a || m == b
  {
    if a >= b then a else b
  }
}
