/**
 * The clock's UTC calendar date and its `Y-m-d` text (db_config.php, getCurrentUtcDate).
 * The reset policy compares two such texts with PHP's string `<`; the lemmas here show
 * that this comparison is the chronological one.
 */
module UtcDate {
  import opened Php

  datatype Date = Date(year: nat, month: nat, day: nat)

  predicate IsLeapYear(y: nat)
  {
    y % 4 == 0 && (y % 100 != 0 || y % 400 == 0)
  }

  function DaysInMonth(y: nat, m: nat): nat
    requires 1 <= m <= 12
  {
    if m == 2 then (if IsLeapYear(y) then 29 else 28)
    else if m == 4 || m == 6 || m == 9 || m == 11 then 30
    else 31
  }

  /** A real calendar date whose year `gmdate('Y')` prints with four digits. */
  predicate ValidDate(d: Date)
  {
    d.year <= 9999 && 1 <= d.month <= 12 && 1 <= d.day <= DaysInMonth(d.year, d.month)
  }

  /** Chronological order: `a` is an earlier day than `b`. */
  predicate Before(a: Date, b: Date)
  {
    a.year < b.year
    || (a.year == b.year && (a.month < b.month || (a.month == b.month && a.day < b.day)))
  }

  function Pow10(w: nat): nat
  {
    if w == 0 then 1 else 10 * Pow10(w - 1)
  }

  predicate IsDigit(c: char)
  {
    '0' <= c <= '9'
  }

  function DigitChar(k: nat): (c: char)
    requires k < 10
    ensures IsDigit(c)
  {
    ('0' as int + k) as char
  }

  /** The last `w` decimal digits of `n`, most significant first, padded with zeros. */
  function Digits(n: nat, w: nat): (s: string)
    ensures |s| == w
    ensures forall i :: 0 <= i < w ==> IsDigit(s[i])
  {
    if w == 0 then [] else Digits(n / 10, w - 1) + [DigitChar(n % 10)]
  }

  /** `gmdate('Y-m-d')`: the date as zero-padded year, month and day joined by dashes. */
  function FormatDate(d: Date): (s: string)
    requires ValidDate(d)
    ensures |s| == 10 && s[4] == '-' && s[7] == '-'
    ensures forall i :: 0 <= i < 10 && i != 4 && i != 7 ==> IsDigit(s[i])
  {
    Digits(d.year, 4) + ("-" + (Digits(d.month, 2) + ("-" + Digits(d.day, 2))))
  }

  lemma DigitCharOrder(j: nat, k: nat)
    requires j < 10 && k < 10
    ensures DigitChar(j) < DigitChar(k) <==> j < k
    ensures DigitChar(j) == DigitChar(k) <==> j == k
  {
  }

  /** Zero-padded numerals of one width compare as the numbers do. */
  lemma {:induction false} DigitsOrder(n: nat, m: nat, w: nat)
    requires n < Pow10(w) && m < Pow10(w)
    ensures LexLess(Digits(n, w), Digits(m, w)) <==> n < m
    ensures Digits(n, w) == Digits(m, w) <==> n == m
  {
    if w == 0 {
      assert n == 0 && m == 0;
    } else {
      var n', m' := n / 10, m / 10;
      assert n == 10 * n' + n % 10 && m == 10 * m' + m % 10;
      assert n' < Pow10(w - 1) && m' < Pow10(w - 1);
      DigitsOrder(n', m', w - 1);
      var cn, cm := DigitChar(n % 10), DigitChar(m % 10);
      DigitCharOrder(n % 10, m % 10);
      LexLessAppend(Digits(n', w - 1), [cn], Digits(m', w - 1), [cm]);
      AppendEqual(Digits(n', w - 1), [cn], Digits(m', w - 1), [cm]);
      assert LexLess([cn], [cm]) <==> cn < cm by {
        assert [cn][1..] == [] && [cm][1..] == [];
      }
    }
  }

  /** Comparing two `Y-m-d` texts with `<` is the chronological order of the dates. */
  lemma FormatDateOrder(a: Date, b: Date)
    requires ValidDate(a) && ValidDate(b)
    ensures LexLess(FormatDate(a), FormatDate(b)) <==> Before(a, b)
  {
    assert Pow10(2) == 100 && Pow10(4) == 10000;
    DigitsOrder(a.year, b.year, 4);
    DigitsOrder(a.month, b.month, 2);
    DigitsOrder(a.day, b.day, 2);
    var ya, yb := Digits(a.year, 4), Digits(b.year, 4);
    var ma, mb := Digits(a.month, 2), Digits(b.month, 2);
    var da, db := Digits(a.day, 2), Digits(b.day, 2);
    LexLessIrreflexive("-");
    LexLessAppend("-", da, "-", db);
    LexLessAppend(ma, "-" + da, mb, "-" + db);
    LexLessAppend("-", ma + ("-" + da), "-", mb + ("-" + db));
    AppendEqual("-", da, "-", db);
    AppendEqual(ma, "-" + da, mb, "-" + db);
    AppendEqual("-", ma + ("-" + da), "-", mb + ("-" + db));
    LexLessAppend(ya, "-" + (ma + ("-" + da)), yb, "-" + (mb + ("-" + db)));
  }

  /** Two valid dates print the same text iff they are the same day. */
  lemma FormatDateInjective(a: Date, b: Date)
    requires ValidDate(a) && ValidDate(b)
    ensures FormatDate(a) == FormatDate(b) <==> a == b
  {
    assert Pow10(2) == 100 && Pow10(4) == 10000;
    DigitsOrder(a.year, b.year, 4);
    DigitsOrder(a.month, b.month, 2);
    DigitsOrder(a.day, b.day, 2);
    var ya, yb := Digits(a.year, 4), Digits(b.year, 4);
    var ma, mb := Digits(a.month, 2), Digits(b.month, 2);
    var da, db := Digits(a.day, 2), Digits(b.day, 2);
    AppendEqual("-", da, "-", db);
    AppendEqual(ma, "-" + da, mb, "-" + db);
    AppendEqual("-", ma + ("-" + da), "-", mb + ("-" + db));
    AppendEqual(ya, "-" + (ma + ("-" + da)), yb, "-" + (mb + ("-" + db)));
  }
}
