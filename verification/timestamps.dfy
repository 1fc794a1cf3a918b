/** Local date-times and their `strftime('%Y%m%d_%H%M%S')` rendering, the
    suffix the version store puts on every saved copy. */
module Timestamps {
  import opened Outcomes

  /** A broken-down local time as `datetime.now()` yields it (to the second). */
  datatype DateTime = DateTime(year: int, month: int, day: int, hour: int, minute: int, second: int)

  predicate IsLeapYear(y: int)
  {
    y % 4 == 0 && (y % 100 != 0 || y % 400 == 0)
  }

  function DaysInMonth(y: int, m: int): int
    requires 1 <= m <= 12
  {
    if m == 2 then (if IsLeapYear(y) then 29 else 28)
    else if m == 4 || m == 6 || m == 9 || m == 11 then 30
    else 31
  }

  /** The values `datetime` accepts, restricted to four-digit years (for which
      `%Y` yields exactly four digits). */
  predicate Valid(t: DateTime)
  {
    && 1000 <= t.year <= 9999
    && 1 <= t.month <= 12
    && 1 <= t.day <= DaysInMonth(t.year, t.month)
    && 0 <= t.hour < 24
    && 0 <= t.minute < 60
    && 0 <= t.second < 60
  }

  /** A clock reading. */
  type Stamp = t: DateTime | Valid(t) witness DateTime(2000, 1, 1, 0, 0, 0)

  /** Chronological order on clock readings. */
  predicate Before(a: DateTime, b: DateTime)
  {
    || a.year < b.year
    || (a.year == b.year && a.month < b.month)
    || (a.year == b.year && a.month == b.month && a.day < b.day)
    || (a.year == b.year && a.month == b.month && a.day == b.day && a.hour < b.hour)
    || (a.year == b.year && a.month == b.month && a.day == b.day && a.hour == b.hour && a.minute < b.minute)
    || (a.year == b.year && a.month == b.month && a.day == b.day && a.hour == b.hour && a.minute == b.minute
        && a.second < b.second)
  }

  predicate IsDigit(c: char)
  {
    '0' <= c <= '9'
  }

  predicate AllDigits(s: string)
  {
    forall i :: 0 <= i < |s| ==> IsDigit(s[i])
  }

  function DigitChar(d: nat): (c: char)
    requires d < 10
    ensures IsDigit(c)
  {
    ('0' as int + d) as char
  }

  function DigitValue(c: char): (d: nat)
    requires IsDigit(c)
    ensures d < 10 && DigitChar(d) == c
  {
    c as int - '0' as int
  }

  function Pow10(w: nat): (p: nat)
    ensures p >= 1
  {
    if w == 0 then 1 else 10 * Pow10(w - 1)
  }

  /** `n` in decimal, zero-padded to exactly `w` digits (`%02d`, `%04d`). */
  function Digits(n: nat, w: nat): (s: string)
    requires n < Pow10(w)
    ensures |s| == w && AllDigits(s)
  {
    if w == 0 then ""
    else Digits(n / 10, w - 1) + [DigitChar(n % 10)]
  }

  /** The number a string of decimal digits denotes. */
  function Value(s: string): (n: nat)
    requires AllDigits(s)
    ensures n < Pow10(|s|)
  {
    if |s| == 0 then 0
    else Value(s[..|s| - 1]) * 10 + DigitValue(s[|s| - 1])
  }

  /** Reading back a padded number gives the number. */
  lemma {:induction false} ValueOfDigits(n: nat, w: nat)
    requires n < Pow10(w)
    ensures Value(Digits(n, w)) == n
  {
    if w > 0 {
      var s := Digits(n, w);
      ValueOfDigits(n / 10, w - 1);
      assert s[..|s| - 1] == Digits(n / 10, w - 1);
      assert DigitValue(s[|s| - 1]) == n % 10;
    }
  }

  /** Padding the value of a digit string rebuilds the string. */
  lemma {:induction false} DigitsOfValue(s: string)
    requires AllDigits(s)
    ensures Digits(Value(s), |s|) == s
  {
    if |s| > 0 {
      var init := s[..|s| - 1];
      var n := Value(s);
      DigitsOfValue(init);
      assert n / 10 == Value(init) && n % 10 == DigitValue(s[|s| - 1]);
      assert s == init + [s[|s| - 1]];
    }
  }

  /** Strict lexicographic order on equal-length strings, as Python compares them. */
  predicate LexLess(a: string, b: string)
    requires |a| == |b|
  {
    |a| > 0 && (a[0] < b[0] || (a[0] == b[0] && LexLess(a[1..], b[1..])))
  }

  lemma {:induction false} LexLessAppend(a1: string, b1: string, a2: string, b2: string)
    requires |a1| == |a2| && |b1| == |b2|
    ensures LexLess(a1 + b1, a2 + b2) <==> LexLess(a1, a2) || (a1 == a2 && LexLess(b1, b2))
    decreases |a1|
  {
    if |a1| == 0 {
      assert a1 + b1 == b1 && a2 + b2 == b2;
    } else {
      LexLessAppend(a1[1..], b1, a2[1..], b2);
      assert (a1 + b1)[1..] == a1[1..] + b1;
      assert (a2 + b2)[1..] == a2[1..] + b2;
      if a1[0] == a2[0] && a1[1..] == a2[1..] {
        assert a1 == [a1[0]] + a1[1..] && a2 == [a2[0]] + a2[1..];
      }
    }
  }

  /** Zero-padded numbers of one width sort as the numbers do. */
  lemma {:induction false} DigitsOrder(n: nat, m: nat, w: nat)
    requires n < Pow10(w) && m < Pow10(w)
    ensures n < m <==> LexLess(Digits(n, w), Digits(m, w))
  {
    if w > 0 {
      DigitsOrder(n / 10, m / 10, w - 1);
      DigitsInjective(n / 10, m / 10, w - 1);
      var cn, cm := DigitChar(n % 10), DigitChar(m % 10);
      LexLessAppend(Digits(n / 10, w - 1), [cn], Digits(m / 10, w - 1), [cm]);
      assert LexLess([cn], [cm]) <==> n % 10 < m % 10 by {
        assert [cn][1..] == [] && [cm][1..] == [];
      }
      DecimalOrder(n, m);
    }
  }

  /** Comparing two numbers is comparing all but their last digits, then the last. */
  lemma DecimalOrder(n: nat, m: nat)
    ensures n < m <==> n / 10 < m / 10 || (n / 10 == m / 10 && n % 10 < m % 10)
  {
    assert n == 10 * (n / 10) + n % 10;
    assert m == 10 * (m / 10) + m % 10;
  }

  /** `t.strftime('%Y%m%d_%H%M%S')`. */
  function Render(t: Stamp): (s: string)
    ensures |s| == 15 && s[8] == '_'
    ensures forall i :: 0 <= i < 15 && i != 8 ==> IsDigit(s[i])
  {
    Digits(t.year, 4) + (Digits(t.month, 2) + (Digits(t.day, 2) + ("_" +
      (Digits(t.hour, 2) + (Digits(t.minute, 2) + Digits(t.second, 2))))))
  }

  /** The inverse of `Render`: `datetime.strptime(s, '%Y%m%d_%H%M%S')`
      restricted to the strings `Render` can produce. */
  function Parse(s: string): (r: Option<Stamp>)
    ensures r.Some? ==> |s| == 15
  {
    if |s| == 15 && s[8] == '_' && AllDigits(s[..8]) && AllDigits(s[9..]) then
      var t := DateTime(Value(s[..4]), Value(s[4..6]), Value(s[6..8]),
                        Value(s[9..11]), Value(s[11..13]), Value(s[13..]));
      if Valid(t) then Some(t) else None
    else None
  }

  /** Every rendered clock reading parses back to itself. */
  lemma ParseRender(t: Stamp)
    ensures Parse(Render(t)) == Some(t)
  {
    var s := Render(t);
    assert s[..4] == Digits(t.year, 4);
    assert s[4..6] == Digits(t.month, 2);
    assert s[6..8] == Digits(t.day, 2);
    assert s[9..11] == Digits(t.hour, 2);
    assert s[11..13] == Digits(t.minute, 2);
    assert s[13..] == Digits(t.second, 2);
    ValueOfDigits(t.year, 4);
    ValueOfDigits(t.month, 2);
    ValueOfDigits(t.day, 2);
    ValueOfDigits(t.hour, 2);
    ValueOfDigits(t.minute, 2);
    ValueOfDigits(t.second, 2);
  }

  /** Only rendered strings parse, so a parsed timestamp renders back to its text. */
  lemma RenderParse(s: string)
    requires Parse(s).Some?
    ensures Render(Parse(s).value) == s
  {
    var t := Parse(s).value;
    assert Digits(t.year, 4) == s[..4] by { DigitsOfValue(s[..4]); }
    assert Digits(t.month, 2) == s[4..6] by { DigitsOfValue(s[4..6]); }
    assert Digits(t.day, 2) == s[6..8] by { DigitsOfValue(s[6..8]); }
    assert Digits(t.hour, 2) == s[9..11] by { DigitsOfValue(s[9..11]); }
    assert Digits(t.minute, 2) == s[11..13] by { DigitsOfValue(s[11..13]); }
    assert Digits(t.second, 2) == s[13..] by { DigitsOfValue(s[13..]); }
    StampFields(s);
  }

  /** A 15-character stamp is the concatenation of its fields. */
  lemma StampFields(s: string)
    requires |s| == 15 && s[8] == '_'
    ensures s == s[..4] + (s[4..6] + (s[6..8] + ("_" + (s[9..11] + (s[11..13] + s[13..])))))
  {
    assert s[11..13] + s[13..] == s[11..];
    assert s[9..11] + s[11..] == s[9..];
    assert "_" + s[9..] == s[8..];
    assert s[6..8] + s[8..] == s[6..];
    assert s[4..6] + s[6..] == s[4..];
    assert s[..4] + s[4..] == s;
  }

  /** Rendered timestamps sort as the clock readings do: the version names of
      one file list in chronological order. */
  lemma RenderOrder(a: Stamp, b: Stamp)
    ensures Before(a, b) <==> LexLess(Render(a), Render(b))
  {
    var ya, yb := Digits(a.year, 4), Digits(b.year, 4);
    var moa, mob := Digits(a.month, 2), Digits(b.month, 2);
    var da, db := Digits(a.day, 2), Digits(b.day, 2);
    var ha, hb := Digits(a.hour, 2), Digits(b.hour, 2);
    var mia, mib := Digits(a.minute, 2), Digits(b.minute, 2);
    var sa, sb := Digits(a.second, 2), Digits(b.second, 2);
    DigitsOrder(a.year, b.year, 4);
    DigitsOrder(a.month, b.month, 2);
    DigitsOrder(a.day, b.day, 2);
    DigitsOrder(a.hour, b.hour, 2);
    DigitsOrder(a.minute, b.minute, 2);
    DigitsOrder(a.second, b.second, 2);
    DigitsInjective(a.year, b.year, 4);
    DigitsInjective(a.month, b.month, 2);
    DigitsInjective(a.day, b.day, 2);
    DigitsInjective(a.hour, b.hour, 2);
    DigitsInjective(a.minute, b.minute, 2);
    LexLessAppend(mia, sa, mib, sb);
    LexLessAppend(ha, mia + sa, hb, mib + sb);
    LexLessAppend("_", ha + (mia + sa), "_", hb + (mib + sb));
    LexLessAppend(da, "_" + (ha + (mia + sa)), db, "_" + (hb + (mib + sb)));
    LexLessAppend(moa, da + ("_" + (ha + (mia + sa))), mob, db + ("_" + (hb + (mib + sb))));
    LexLessAppend(ya, moa + (da + ("_" + (ha + (mia + sa)))), yb, mob + (db + ("_" + (hb + (mib + sb)))));
    assert !LexLess("_", "_");
  }

  lemma DigitsInjective(n: nat, m: nat, w: nat)
    requires n < Pow10(w) && m < Pow10(w)
    ensures Digits(n, w) == Digits(m, w) <==> n == m
  {
    ValueOfDigits(n, w);
    ValueOfDigits(m, w);
  }
}
