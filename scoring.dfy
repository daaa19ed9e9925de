/** The importance score of a question (`calculateImportanceScore`, defined identically in
    the questions route and the question-seeding route): 40% how often the question was
    asked, 40% how many of those years are recent, 20% a manual weight, each term capped
    at 1 and the sum rounded to two decimals. The clock is a parameter (`currentYear`). */
module Scoring {
  import opened Common
  import opened Text

  predicate IsDigit(c: char) {
    '0' <= c <= '9'
  }

  predicate AllDigits(s: string) {
    forall i :: 0 <= i < |s| ==> IsDigit(s[i])
  }

  /** Length of the longest prefix of `s` made of decimal digits. */
  function DigitRun(s: string): (n: nat)
    ensures n <= |s|
    ensures forall i :: 0 <= i < n ==> IsDigit(s[i])
    ensures n < |s| ==> !IsDigit(s[n])
  {
    if s != [] && IsDigit(s[0]) then 1 + DigitRun(s[1..]) else 0
  }

  /** The number a string of decimal digits denotes, most significant digit first. */
  function DigitsValue(s: string): nat
    requires AllDigits(s)
  {
    if s == [] then 0 else 10 * DigitsValue(s[..|s| - 1]) + (s[|s| - 1] as int - '0' as int)
  }

  predicate IsHexDigit(c: char) {
    IsDigit(c) || 'a' <= c <= 'f' || 'A' <= c <= 'F'
  }

  predicate AllHexDigits(s: string) {
    forall i :: 0 <= i < |s| ==> IsHexDigit(s[i])
  }

  function HexDigitValue(c: char): (v: nat)
    requires IsHexDigit(c)
    ensures v < 16
  {
    if IsDigit(c) then c as int - '0' as int
    else if 'a' <= c <= 'f' then c as int - 'a' as int + 10
    else c as int - 'A' as int + 10
  }

  /** Length of the longest prefix of `s` made of hexadecimal digits. */
  function HexRun(s: string): (n: nat)
    ensures n <= |s|
    ensures forall i :: 0 <= i < n ==> IsHexDigit(s[i])
    ensures n < |s| ==> !IsHexDigit(s[n])
  {
    if s != [] && IsHexDigit(s[0]) then 1 + HexRun(s[1..]) else 0
  }

  /** The number a string of hexadecimal digits denotes, most significant digit first. */
  function HexValue(s: string): nat
    requires AllHexDigits(s)
  {
    if s == [] then 0 else 16 * HexValue(s[..|s| - 1]) + HexDigitValue(s[|s| - 1])
  }

  /** Text that `parseInt` without a radix reads as hexadecimal: `0x` or `0X` first. */
  predicate HexPrefixed(s: string) {
    |s| >= 2 && s[0] == '0' && (s[1] == 'x' || s[1] == 'X')
  }

  /** The number at the start of the text after the sign: the hexadecimal digits after a
      `0x` prefix, otherwise the decimal digits; `None` when there are none. */
  function Magnitude(body: string): Option<nat> {
    if HexPrefixed(body) then
      var n := HexRun(body[2..]);
      if n == 0 then None else Some(HexValue(body[2..][..n]))
    else
      var n := DigitRun(body);
      if n == 0 then None else Some(DigitsValue(body[..n]))
  }

  /** JavaScript's `parseInt(s)` without a radix: leading white space is skipped, one
      optional sign is read, then a `0x` prefix and the longest run of hexadecimal
      digits, or else the longest run of decimal digits; `None` is `NaN`, the answer
      when that run is empty. */
  function ParseInt(s: string): (r: Option<int>)
    ensures TrimStart(s) == [] ==> r.None?
    ensures r.Some? && r.value < 0 ==> TrimStart(s)[0] == '-'
  {
    var t := TrimStart(s);
    var signed := t != [] && (t[0] == '-' || t[0] == '+');
    var body := if signed then t[1..] else t;
    match Magnitude(body)
    case None => None
    case Some(v) => if signed && t[0] == '-' then Some(0 - v) else Some(v)
  }

  function DigitChar(d: nat): (c: char)
    requires d < 10
    ensures IsDigit(c)
  {
    ('0' as int + d) as char
  }

  /** The decimal text of a natural number (how a year is written). */
  function ShowNat(n: nat): (s: string)
    ensures s != [] && AllDigits(s)
  {
    if n < 10 then [DigitChar(n)] else ShowNat(n / 10) + [DigitChar(n % 10)]
  }

  lemma {:induction false} ShowNatValue(n: nat)
    ensures DigitsValue(ShowNat(n)) == n
  {
    if n >= 10 {
      var s := ShowNat(n);
      assert s[..|s| - 1] == ShowNat(n / 10);
      ShowNatValue(n / 10);
    }
  }

  lemma {:induction false} DigitRunOfDigits(d: string, rest: string)
    requires AllDigits(d)
    requires rest == [] || !IsDigit(rest[0])
    ensures DigitRun(d + rest) == |d|
  {
    if d != [] {
      assert (d + rest)[1..] == d[1..] + rest;
      DigitRunOfDigits(d[1..], rest);
    }
  }

  /** The decimal text of a number is read as hexadecimal only when it is `0` and an `x`
      or `X` follows it. */
  lemma ShownNotHex(n: nat, rest: string)
    requires n == 0 ==> rest == [] || (rest[0] != 'x' && rest[0] != 'X')
    ensures !HexPrefixed(ShowNat(n) + rest)
  {
    var s := ShowNat(n) + rest;
    if n >= 10 {
      assert |ShowNat(n)| >= 2;
      assert IsDigit(s[1]);
    } else if n > 0 {
      assert s[0] == DigitChar(n);
    } else if rest != [] {
      assert s[1] == rest[0];
    }
  }

  /** `parseInt` reads back the decimal text of a number, whatever non-digit text follows
      it, unless that is a `0` followed by an `x`. */
  lemma ParseShowNat(n: nat, rest: string)
    requires rest == [] || !IsDigit(rest[0])
    requires n == 0 ==> rest == [] || (rest[0] != 'x' && rest[0] != 'X')
    ensures ParseInt(ShowNat(n) + rest) == Some(n)
  {
    ShownNotHex(n, rest);
    ParseDigits(ShowNat(n), rest);
    ShowNatValue(n);
  }

  /** `parseInt` of a run of digits followed by a non-digit reads the run's value, unless
      the text opens with `0x`. */
  lemma ParseDigits(d: string, rest: string)
    requires d != [] && AllDigits(d)
    requires rest == [] || !IsDigit(rest[0])
    requires !HexPrefixed(d + rest)
    ensures ParseInt(d + rest) == Some(DigitsValue(d))
  {
    var s := d + rest;
    assert s[0] == d[0];
    ParseUnsigned(s);
    DigitRunOfDigits(d, rest);
    assert s[..|d|] == d;
  }

  lemma DecimalMagnitude(body: string)
    requires body != [] && IsDigit(body[0]) && !HexPrefixed(body)
    ensures Magnitude(body) == Some(DigitsValue(body[..DigitRun(body)]))
  {
  }

  /** `parseInt` of a text that starts with a digit, and not with `0x`, reads its leading
      run of digits. */
  lemma ParseUnsigned(s: string)
    requires s != [] && IsDigit(s[0]) && !HexPrefixed(s)
    ensures ParseInt(s) == Some(DigitsValue(s[..DigitRun(s)]))
  {
    assert TrimStart(s) == s;
    assert s[0] != '-' && s[0] != '+';
    DecimalMagnitude(s);
  }

  /** `parseInt` of a minus sign followed by text that starts with a digit, and not with
      `0x`, reads the negated run of digits after the sign. */
  lemma ParseMinus(s: string, body: string, d: string)
    requires s == ['-'] + body && body != [] && IsDigit(body[0]) && !HexPrefixed(body) && d == body[..DigitRun(body)]
    ensures ParseInt(s) == Some(0 - DigitsValue(d))
  {
    assert !IsSpace(s[0]);
    assert TrimStart(s) == s;
    assert s[1..] == body;
    DecimalMagnitude(body);
  }

  /** `parseInt` of a minus sign, a run of digits and a non-digit reads the negated run. */
  lemma ParseNegative(s: string, d: string, rest: string)
    requires d != [] && AllDigits(d)
    requires rest == [] || !IsDigit(rest[0])
    requires !HexPrefixed(d + rest)
    requires s == ['-'] + (d + rest)
    ensures ParseInt(s) == Some(0 - DigitsValue(d))
  {
    var body := d + rest;
    DigitRunOfDigits(d, rest);
    assert body[..DigitRun(body)] == d;
    ParseMinus(s, body, d);
  }

  /** A negative integer written out and followed by a non-digit parses back as itself. */
  lemma ParseShowNegative(n: int, rest: string)
    requires n < 0 && (rest == [] || !IsDigit(rest[0]))
    ensures ParseInt(ShowInt(n) + rest) == Some(n)
  {
    var m: nat := -n;
    var d := ShowNat(m);
    ShowNatValue(m);
    ShownNotHex(m, rest);
    assert ShowInt(n) + rest == ['-'] + (d + rest);
    ParseNegative(ShowInt(n) + rest, d, rest);
  }

  /** An integer written out and followed by a non-digit parses back, with `parseInt`,
      as itself, whatever its sign (a `0` followed by an `x` excepted). */
  lemma ParseShowInt(n: int, rest: string)
    requires rest == [] || !IsDigit(rest[0])
    requires n == 0 ==> rest == [] || (rest[0] != 'x' && rest[0] != 'X')
    ensures ParseInt(ShowInt(n) + rest) == Some(n)
  {
    if n < 0 {
      ParseShowNegative(n, rest);
    } else {
      assert ShowInt(n) == ShowNat(n);
      ParseShowNat(n, rest);
    }
  }

  lemma {:induction false} HexRunOfHex(h: string, rest: string)
    requires AllHexDigits(h)
    requires rest == [] || !IsHexDigit(rest[0])
    ensures HexRun(h + rest) == |h|
  {
    if h != [] {
      assert (h + rest)[1..] == h[1..] + rest;
      HexRunOfHex(h[1..], rest);
    }
  }

  /** `parseInt` of `0x`, a run of hexadecimal digits and a non-hexadecimal character reads
      the run in base 16. */
  lemma ParseHex(s: string, h: string, rest: string)
    requires h != [] && AllHexDigits(h)
    requires rest == [] || !IsHexDigit(rest[0])
    requires s == "0x" + (h + rest)
    ensures ParseInt(s) == Some(HexValue(h))
  {
    assert !IsSpace(s[0]);
    assert TrimStart(s) == s;
    assert HexPrefixed(s);
    assert s[2..] == h + rest;
    HexRunOfHex(h, rest);
    assert (h + rest)[..|h|] == h;
  }

  lemma HexDigitsOfYear()
    ensures HexValue("7E8") == 2024
  {
    assert "7E8"[..2] == "7E" && "7E"[..1] == "7";
  }

  lemma BareHexPrefix()
    ensures ParseInt("0x") == None
  {
    assert !IsSpace('0');
    assert TrimStart("0x") == "0x";
    assert "0x"[2..] == [];
  }

  /** `"0x7E8"` is the year 2024 to `parseInt`, so it counts as recent in 2024, while `0x`
      with no digits after it is not a number. */
  lemma HexYearRecent()
    ensures ParseInt("0x7E8") == Some(2024)
    ensures IsRecent("0x7E8", 2024)
    ensures ParseInt("0x") == None
  {
    ParseHex("0x7E8", "7E8", []);
    HexDigitsOfYear();
    BareHexPrefix();
  }

  /** The decimal text of an integer, as JavaScript writes a whole number. */
  function ShowInt(n: int): (s: string)
    ensures s != []
  {
    if n < 0 then "-" + ShowNat(-n) else ShowNat(n)
  }

  /** A year counts as recent when it parses and lies at most five years before
      `currentYear`: text that does not parse never counts, and a parsed year at or after
      `currentYear` always does. */
  function IsRecent(year: string, currentYear: int): (b: bool)
    ensures ParseInt(year).None? ==> !b
    ensures ParseInt(year).Some? && ParseInt(year).value >= currentYear ==> b
  {
    var y := ParseInt(year);
    y.Some? && currentYear - y.value <= 5
  }

  /** `years.filter(IsRecent).length`. */
  function RecentCount(years: seq<string>, currentYear: int): (n: nat)
    ensures n <= |years|
  {
    if years == [] then 0
    else (if IsRecent(years[0], currentYear) then 1 else 0) + RecentCount(years[1..], currentYear)
  }

  function Min(a: real, b: real): real {
    if a <= b then a else b
  }

  function Max(a: real, b: real): real {
    if a >= b then a else b
  }

  /** `Math.min(repeatCount / 10, 1.0)`. */
  function RepeatScore(repeatCount: nat): (r: real)
    ensures 0.0 <= r <= 1.0
  {
    Min(repeatCount as real / 10.0, 1.0)
  }

  /** `Math.min(recentYears.length / 5, 1.0)`. */
  function RecencyScore(years: seq<string>, currentYear: int): (r: real)
    ensures 0.0 <= r <= 1.0
  {
    Min(RecentCount(years, currentYear) as real / 5.0, 1.0)
  }

  /** `Math.min(Math.max(globalImportance, 0), 1)`: the weight is clamped, never rejected. */
  function GlobalScore(globalImportance: real): (r: real)
    ensures 0.0 <= r <= 1.0
    ensures 0.0 <= globalImportance <= 1.0 ==> r == globalImportance
    ensures globalImportance < 0.0 ==> r == 0.0
    ensures globalImportance > 1.0 ==> r == 1.0
  {
    Min(Max(globalImportance, 0.0), 1.0)
  }

  function WeightedScore(repeatCount: nat, years: seq<string>, globalImportance: real, currentYear: int): real {
    RepeatScore(repeatCount) * 0.4 + RecencyScore(years, currentYear) * 0.4 + GlobalScore(globalImportance) * 0.2
  }

  /** `Math.round(x * 100) / 100` over exact reals: round half up to a hundredth. */
  function Round2(x: real): real {
    ((x * 100.0 + 0.5).Floor as real) / 100.0
  }

  /** `calculateImportanceScore(repeatCount, years, globalImportance)` in year `currentYear`. */
  function ImportanceScore(repeatCount: nat, years: seq<string>, globalImportance: real, currentYear: int): (s: real)
    ensures 0.0 <= s <= 1.0 && WholeHundredths(s)
  {
    var w := WeightedScore(repeatCount, years, globalImportance, currentYear);
    assert 0.5 <= w * 100.0 + 0.5 <= 100.5;
    Round2Nearest(w);
    Round2(w)
  }

  /** `s` is a whole number of hundredths. */
  predicate WholeHundredths(s: real) {
    (s * 100.0).Floor as real == s * 100.0
  }

  /** Rounding lands on a whole number of hundredths, the nearest one with ties going up. */
  lemma Round2Nearest(x: real)
    ensures x - 0.005 < Round2(x) <= x + 0.005
    ensures WholeHundredths(Round2(x))
  {
    var k := (x * 100.0 + 0.5).Floor;
    var r := k as real / 100.0;
    assert Round2(x) == r;
    assert r * 100.0 == k as real;
    assert (r * 100.0).Floor == k;
  }

  /** Rounding preserves order. */
  lemma Round2Monotone(x: real, y: real)
    requires x <= y
    ensures Round2(x) <= Round2(y)
  {
    var xs, ys := x * 100.0 + 0.5, y * 100.0 + 0.5;
    assert xs <= ys;
    var a, b := xs.Floor, ys.Floor;
    assert a as real <= xs && ys < b as real + 1.0;
    assert a <= b;
    assert Round2(x) == a as real / 100.0 && Round2(y) == b as real / 100.0;
  }

  /** Ten or more repeats, and five or more recent years, each earn the full 0.4 and no more. */
  lemma TermsSaturate(repeatCount: nat, years: seq<string>, globalImportance: real, currentYear: int)
    ensures repeatCount >= 10 ==> RepeatScore(repeatCount) == 1.0
    ensures repeatCount < 10 ==> RepeatScore(repeatCount) == repeatCount as real / 10.0
    ensures RecentCount(years, currentYear) >= 5 ==> RecencyScore(years, currentYear) == 1.0
    ensures repeatCount >= 10 && RecentCount(years, currentYear) >= 5 ==>
      ImportanceScore(repeatCount, years, globalImportance, currentYear) == Round2(0.8 + 0.2 * GlobalScore(globalImportance))
  {
  }

  /** A question with no years scores only its weighted manual importance. */
  lemma ScoreWithoutYears(globalImportance: real, currentYear: int)
    ensures ImportanceScore(0, [], globalImportance, currentYear) == Round2(0.2 * GlobalScore(globalImportance))
  {
    assert RecentCount([], currentYear) == 0;
  }

  /** The decimal text of a year is recent exactly when the year is at most five years back. */
  lemma RecentShownYear(v: nat, currentYear: int)
    ensures IsRecent(ShowNat(v), currentYear) <==> currentYear - v <= 5
  {
    ParseShowNat(v, []);
    assert ShowNat(v) + [] == ShowNat(v);
  }

  lemma {:induction false} RecentCountAppend(a: seq<string>, b: seq<string>, currentYear: int)
    ensures RecentCount(a + b, currentYear) == RecentCount(a, currentYear) + RecentCount(b, currentYear)
  {
    if a == [] {
      assert a + b == b;
    } else {
      assert (a + b)[1..] == a[1..] + b;
      RecentCountAppend(a[1..], b, currentYear);
    }
  }

  /** The recent-year count depends only on which years occur how often, not on their order. */
  lemma {:induction false} RecentCountPermutation(a: seq<string>, b: seq<string>, currentYear: int)
    requires multiset(a) == multiset(b)
    ensures RecentCount(a, currentYear) == RecentCount(b, currentYear)
    decreases |a|
  {
    if a != [] {
      var x := a[0];
      assert x in multiset(b);
      var i :| 0 <= i < |b| && b[i] == x;
      var rest := b[..i] + b[i + 1..];
      assert b == b[..i] + [x] + b[i + 1..];
      assert a == [x] + a[1..];
      assert multiset(b) == multiset(b[..i]) + multiset{x} + multiset(b[i + 1..]);
      assert multiset(a) == multiset{x} + multiset(a[1..]);
      assert multiset(rest) == multiset(b[..i]) + multiset(b[i + 1..]);
      assert multiset(a[1..]) == multiset(a) - multiset{x};
      assert multiset(rest) == multiset(b) - multiset{x};
      RecentCountPermutation(a[1..], rest, currentYear);
      RecentCountAppend(b[..i] + [x], b[i + 1..], currentYear);
      RecentCountAppend(b[..i], [x], currentYear);
      RecentCountAppend(b[..i], b[i + 1..], currentYear);
    }
  }

  /** The score of a question (its repeat count being the number of its years) is invariant
      under reordering its years. */
  lemma ScoreIgnoresOrder(a: seq<string>, b: seq<string>, globalImportance: real, currentYear: int)
    requires multiset(a) == multiset(b)
    ensures ImportanceScore(|a|, a, globalImportance, currentYear) == ImportanceScore(|b|, b, globalImportance, currentYear)
  {
    assert |a| == |multiset(a)| == |multiset(b)| == |b|;
    RecentCountPermutation(a, b, currentYear);
    assert RecencyScore(a, currentYear) == RecencyScore(b, currentYear);
    assert WeightedScore(|a|, a, globalImportance, currentYear) == WeightedScore(|b|, b, globalImportance, currentYear);
  }

  /** Raising the manual weight never lowers the score. */
  lemma ScoreMonotoneInWeight(repeatCount: nat, years: seq<string>, g1: real, g2: real, currentYear: int)
    requires g1 <= g2
    ensures ImportanceScore(repeatCount, years, g1, currentYear) <= ImportanceScore(repeatCount, years, g2, currentYear)
  {
    Round2Monotone(WeightedScore(repeatCount, years, g1, currentYear), WeightedScore(repeatCount, years, g2, currentYear));
  }

  /** Prepending the decimal text of a year adds one to the count exactly when that year is recent. */
  lemma RecentCountCons(v: nat, rest: seq<string>, currentYear: int)
    ensures RecentCount([ShowNat(v)] + rest, currentYear) == (if currentYear - v <= 5 then 1 else 0) + RecentCount(rest, currentYear)
  {
    RecentShownYear(v, currentYear);
    assert ([ShowNat(v)] + rest)[1..] == rest;
  }

  /** The texts of the years 2023, 2022, 2021, 2020, 2019 and 2010. */
  function ExampleYears(): seq<string> {
    [ShowNat(2023), ShowNat(2022), ShowNat(2021), ShowNat(2020), ShowNat(2019), ShowNat(2010)]
  }

  /** Five of these six years are recent in 2024; 2010 is not. */
  lemma ExampleRecentCount()
    ensures RecentCount(ExampleYears(), 2024) == 5
  {
    var y3, y2, y1, y0, y9, y10 := ShowNat(2023), ShowNat(2022), ShowNat(2021), ShowNat(2020), ShowNat(2019), ShowNat(2010);
    RecentCountCons(2010, [], 2024);
    RecentCountCons(2019, [y10], 2024);
    RecentCountCons(2020, [y9, y10], 2024);
    RecentCountCons(2021, [y0, y9, y10], 2024);
    RecentCountCons(2022, [y1, y0, y9, y10], 2024);
    RecentCountCons(2023, [y2, y1, y0, y9, y10], 2024);
  }

  /** Worked example: in 2024, six years of which five are recent, weight 0.9, scores 0.82. */
  lemma ScoreExample()
    ensures ImportanceScore(6, ExampleYears(), 0.9, 2024) == 0.82
  {
    var ys := ExampleYears();
    ExampleRecentCount();
    assert RecencyScore(ys, 2024) == 1.0;
    assert RepeatScore(6) == 0.6;
    assert GlobalScore(0.9) == 0.9;
    var w := WeightedScore(6, ys, 0.9, 2024);
    assert w == 0.82;
    assert (w * 100.0 + 0.5).Floor == 82;
  }
}
