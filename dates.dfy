/**
 * Dates as the ledger stores them: text of the form YYYY-MM-DD, compared the
 * way the embedded store compares TEXT values (character by character, a
 * proper prefix sorting first). The month start of a date is obtained by
 * slicing, `date[:8] + "01"`.
 */
module Dates {

  predicate IsDigit(c: char) {
    '0' <= c <= '9'
  }

  function DigitValue(c: char): (v: nat)
    requires IsDigit(c)
    ensures v < 10
  {
    c as int - '0' as int
  }

  predicate AllDigits(s: string) {
    forall i :: 0 <= i < |s| ==> IsDigit(s[i])
  }

  /** The decimal value of a string of digits, most significant digit first. */
  function Num(s: string): (n: nat)
    requires AllDigits(s)
    decreases |s|
  {
    if s == [] then 0
    else
      10 * Num(s[..|s| - 1]) + DigitValue(s[|s| - 1])
  }

  /** Text order of the store: lexicographic by character, a proper prefix first. */
  predicate TextLe(a: string, b: string)
    decreases |a|
  {
    if a == [] then true
    else if b == [] then false
    else if a[0] != b[0] then a[0] < b[0]
    else TextLe(a[1..], b[1..])
  }

  /** Zero-padded YYYY-MM-DD layout. */
  predicate WellFormed(s: string) {
    |s| == 10 && s[4] == '-' && s[7] == '-' &&
    AllDigits(s[..4]) && AllDigits(s[5..7]) && AllDigits(s[8..])
  }

  function Year(s: string): nat
    requires WellFormed(s)
  {
    Num(s[..4])
  }

  function Month(s: string): nat
    requires WellFormed(s)
  {
    Num(s[5..7])
  }

  function Day(s: string): nat
    requires WellFormed(s)
  {
    Num(s[8..])
  }

  predicate IsLeapYear(y: int) {
    y % 4 == 0 && (y % 100 != 0 || y % 400 == 0)
  }

  function DaysInMonth(y: int, m: int): (n: int)
    requires 1 <= m <= 12
    ensures 28 <= n <= 31
  {
    if m == 2 then (if IsLeapYear(y) then 29 else 28)
    else if m == 4 || m == 6 || m == 9 || m == 11 then 30
    else 31
  }

  /**
   * A zero-padded YYYY-MM-DD string naming a real calendar day (year at
   * least 1, as for Python's `datetime`).
   */
  predicate ValidDate(s: string) {
    WellFormed(s) && 1 <= Year(s) && 1 <= Month(s) <= 12 &&
    1 <= Day(s) <= DaysInMonth(Year(s), Month(s))
  }

  lemma {:induction false} NumTwo(s: string)
    requires |s| == 2 && AllDigits(s)
    ensures Num(s) == 10 * DigitValue(s[0]) + DigitValue(s[1])
  {
    var p := s[..1];
    assert p[..0] == [] && p[0] == s[0];
    assert Num(p) == DigitValue(s[0]);
    assert s[..|s| - 1] == p;
  }

  /** `date[:8] + "01"`: the first day of the date's month. */
  function MonthStart(s: string): (r: string)
    ensures ValidDate(s) ==>
              ValidDate(r) && Year(r) == Year(s) && Month(r) == Month(s) && Day(r) == 1
  {
    var r := (if |s| >= 8 then s[..8] else s) + "01";
    if ValidDate(s) then
      assert r[..4] == s[..4] && r[5..7] == s[5..7] && r[8..] == "01";
      NumTwo("01");
      r
    else r
  }

  lemma {:induction false} TextLeRefl(a: string)
    ensures TextLe(a, a)
    decreases |a|
  {
    if a != [] {
      TextLeRefl(a[1..]);
    }
  }

  /** Comparing two texts whose first parts have equal length. */
  lemma {:induction false} TextLeConcat(a1: string, a2: string, b1: string, b2: string)
    requires |a1| == |b1|
    ensures TextLe(a1 + a2, b1 + b2) == if a1 == b1 then TextLe(a2, b2) else TextLe(a1, b1)
    decreases |a1|
  {
    if a1 == [] {
      assert a1 + a2 == a2 && b1 + b2 == b2;
    } else {
      assert (a1 + a2)[0] == a1[0] && (b1 + b2)[0] == b1[0];
      if a1[0] == b1[0] {
        assert (a1 + a2)[1..] == a1[1..] + a2;
        assert (b1 + b2)[1..] == b1[1..] + b2;
        TextLeConcat(a1[1..], a2, b1[1..], b2);
        assert a1 == [a1[0]] + a1[1..] && b1 == [b1[0]] + b1[1..];
      }
    }
  }

  /** Digit strings of one width sort in text order exactly as their values do. */
  lemma {:induction false} DigitsOrder(a: string, b: string)
    requires |a| == |b| && AllDigits(a) && AllDigits(b)
    ensures TextLe(a, b) <==> Num(a) <= Num(b)
    ensures a == b <==> Num(a) == Num(b)
    decreases |a|
  {
    if a != [] {
      var n := |a| - 1;
      var a', b' := a[..n], b[..n];
      var x, y := a[n], b[n];
      assert a == a' + [x] && b == b' + [y];
      assert AllDigits(a') by {
        forall i | 0 <= i < n ensures IsDigit(a'[i]) { assert a'[i] == a[i]; }
      }
      assert AllDigits(b') by {
        forall i | 0 <= i < n ensures IsDigit(b'[i]) { assert b'[i] == b[i]; }
      }
      DigitsOrder(a', b');
      TextLeConcat(a', [x], b', [y]);
      assert TextLe([x], [y]) == (x <= y) by {
        assert [x][1..] == [] && [y][1..] == [];
      }
      assert Num(a) == 10 * Num(a') + DigitValue(x);
      assert Num(b) == 10 * Num(b') + DigitValue(y);
      if a == b {
      } else if a' == b' {
        assert x != y;
      }
    }
  }

  /** Text order on well-formed dates is calendar order. */
  lemma DateOrder(x: string, d: string)
    requires WellFormed(x) && WellFormed(d)
    ensures TextLe(x, d) <==>
              Year(x) < Year(d) ||
              (Year(x) == Year(d) &&
               (Month(x) < Month(d) || (Month(x) == Month(d) && Day(x) <= Day(d))))
  {
    assert x == x[..4] + x[4..] && d == d[..4] + d[4..];
    DigitsOrder(x[..4], d[..4]);
    TextLeConcat(x[..4], x[4..], d[..4], d[4..]);
    assert x[4..] == [x[4]] + x[5..] && d[4..] == [d[4]] + d[5..];
    TextLeConcat([x[4]], x[5..], [d[4]], d[5..]);
    assert x[5..] == x[5..7] + x[7..] && d[5..] == d[5..7] + d[7..];
    DigitsOrder(x[5..7], d[5..7]);
    TextLeConcat(x[5..7], x[7..], d[5..7], d[7..]);
    assert x[7..] == [x[7]] + x[8..] && d[7..] == [d[7]] + d[8..];
    TextLeConcat([x[7]], x[8..], [d[7]], d[8..]);
    DigitsOrder(x[8..], d[8..]);
  }

  /** The month start of a valid date is not after the date itself. */
  lemma MonthStartLe(d: string)
    requires ValidDate(d)
    ensures TextLe(MonthStart(d), d)
  {
    DateOrder(MonthStart(d), d);
  }

  /**
   * For valid dates, the text window `[MonthStart(d), d]` holds exactly the
   * days of d's calendar month up to and including d.
   */
  lemma WindowIsMonthToDate(x: string, d: string)
    requires ValidDate(x) && ValidDate(d)
    ensures TextLe(MonthStart(d), x) && TextLe(x, d) <==>
              Year(x) == Year(d) && Month(x) == Month(d) && Day(x) <= Day(d)
  {
    DateOrder(MonthStart(d), x);
    DateOrder(x, d);
  }

  // ---------------------------------------------------------------------
  // What Python's `datetime.strptime(s, '%Y-%m-%d')` accepts, restricted to
  // ASCII digits: four year digits, a month token of one or two characters,
  // a day token of one or two characters, the whole string consumed, and the
  // day within the month.

  predicate StrptimeMonthToken(t: string) {
    (|t| == 2 && ((t[0] == '1' && '0' <= t[1] <= '2') || (t[0] == '0' && '1' <= t[1] <= '9'))) ||
    (|t| == 1 && '1' <= t[0] <= '9')
  }

  predicate StrptimeDayToken(t: string) {
    (|t| == 2 &&
     ((t[0] == '3' && '0' <= t[1] <= '1') ||
      ('1' <= t[0] <= '2' && IsDigit(t[1])) ||
      (t[0] == '0' && '1' <= t[1] <= '9') ||
      (t[0] == ' ' && '1' <= t[1] <= '9'))) ||
    (|t| == 1 && '1' <= t[0] <= '9')
  }

  /** The value of a month or day token; a leading space counts as zero. */
  function TokenValue(t: string): nat
    requires 1 <= |t| <= 2
    requires |t| == 1 ==> IsDigit(t[0])
    requires |t| == 2 ==> (IsDigit(t[0]) || t[0] == ' ') && IsDigit(t[1])
  {
    if |t| == 1 then DigitValue(t[0])
    else (if t[0] == ' ' then 0 else 10 * DigitValue(t[0])) + DigitValue(t[1])
  }

  /** The month token ends just before position k, the day token runs to the end. */
  predicate StrptimeSplit(s: string, k: nat)
    requires 5 < k < |s| && AllDigits(s[..4])
  {
    var m, dd := s[5..k], s[k + 1..];
    StrptimeMonthToken(m) && StrptimeDayToken(dd) &&
    1 <= Num(s[..4]) && 1 <= TokenValue(m) <= 12 &&
    TokenValue(dd) <= DaysInMonth(Num(s[..4]), TokenValue(m))
  }

  predicate StrptimeAccepts(s: string) {
    |s| >= 8 && AllDigits(s[..4]) && s[4] == '-' &&
    if s[6] == '-' then StrptimeSplit(s, 6)
    else s[7] == '-' && StrptimeSplit(s, 7)
  }

  /** Every zero-padded valid date is accepted by strptime as well. */
  lemma ValidDateAccepted(s: string)
    requires ValidDate(s)
    ensures StrptimeAccepts(s)
  {
    NumTwo(s[5..7]);
    NumTwo(s[8..]);
    assert s[5..7][0] == s[5] && s[5..7][1] == s[6];
    assert s[8..][0] == s[8] && s[8..][1] == s[9];
    assert !IsDigit('-');
  }

  /** strptime accepts the unpadded date "2024-3-5", which is not a valid zero-padded date. */
  lemma UnpaddedDateAccepted()
    ensures StrptimeAccepts("2024-3-5") && !ValidDate("2024-3-5")
  {
    var s := "2024-3-5";
    assert s[..4] == "2024" && s[4] == '-' && s[6] == '-';
    assert Num("2024") == 2024 by {
      assert "2024"[..3] == "202" && "202"[..2] == "20" && "20"[..1] == "2" && "2"[..0] == [];
    }
    assert s[5..6] == "3" && s[7..] == "5";
  }

  /**
   * The month start of "2024-3-5" is "2024-3-501", which sorts after it, so
   * the window [month start, date] of that date is empty.
   */
  lemma UnpaddedDateLeavesWindow()
    ensures MonthStart("2024-3-5") == "2024-3-501"
    ensures !TextLe(MonthStart("2024-3-5"), "2024-3-5")
  {
    var s := "2024-3-5";
    assert s[..8] == s;
    assert MonthStart(s) == s + "01" && s == s + "";
    TextLeRefl(s);
    TextLeConcat(s, "01", s, "");
  }

  /**
   * strptime accepts a space-padded day, "2024-03- 5". Its month start is
   * "2024-03-01", and since ' ' sorts below '0' that start sorts after the
   * date, so this window is empty as well.
   */
  lemma SpacePaddedDayLeavesWindow()
    ensures StrptimeAccepts("2024-03- 5") && !ValidDate("2024-03- 5")
    ensures MonthStart("2024-03- 5") == "2024-03-01"
    ensures !TextLe(MonthStart("2024-03- 5"), "2024-03- 5")
  {
    var s := "2024-03- 5";
    assert s[..4] == "2024" && s[4] == '-' && s[6] != '-' && s[7] == '-';
    assert Num("2024") == 2024 by {
      assert "2024"[..3] == "202" && "202"[..2] == "20" && "20"[..1] == "2" && "2"[..0] == [];
    }
    assert s[5..7] == "03" && s[8..] == " 5";
    assert !IsDigit(s[8]);
    assert s[..8] == "2024-03-";
    assert MonthStart(s) == "2024-03-" + "01" && s == "2024-03-" + " 5";
    TextLeConcat("2024-03-", "01", "2024-03-", " 5");
  }

  /**
   * strptime accepts "2024-3-10", a one-digit month with day 10. Its month
   * start "2024-3-101" sorts after it, as "2024-3-10" is a proper prefix of
   * it, so this window is empty too; days 20 and 30 behave the same.
   */
  lemma DayTenLeavesWindow()
    ensures StrptimeAccepts("2024-3-10") && !ValidDate("2024-3-10")
    ensures MonthStart("2024-3-10") == "2024-3-101"
    ensures !TextLe(MonthStart("2024-3-10"), "2024-3-10")
  {
    var s := "2024-3-10";
    assert s[..4] == "2024" && s[4] == '-' && s[6] == '-';
    assert Num("2024") == 2024 by {
      assert "2024"[..3] == "202" && "202"[..2] == "20" && "20"[..1] == "2" && "2"[..0] == [];
    }
    assert s[5..6] == "3" && s[7..] == "10";
    assert s[..8] == "2024-3-1";
    assert MonthStart(s) == "2024-3-1" + "01" && s == "2024-3-1" + "0";
    TextLeConcat("2024-3-1", "01", "2024-3-1", "0");
  }

  /**
   * A space-padded day after a one-digit month, "2024-1- 5", is accepted and
   * does not empty its window: its month start "2024-1- 01" sorts before it,
   * since the two first differ at '0' against '5'.
   */
  lemma SpacePaddedShortMonthInWindow()
    ensures StrptimeAccepts("2024-1- 5") && !ValidDate("2024-1- 5")
    ensures MonthStart("2024-1- 5") == "2024-1- 01"
    ensures TextLe(MonthStart("2024-1- 5"), "2024-1- 5")
  {
    var s := "2024-1- 5";
    assert s[..4] == "2024" && s[4] == '-' && s[6] == '-';
    assert Num("2024") == 2024 by {
      assert "2024"[..3] == "202" && "202"[..2] == "20" && "20"[..1] == "2" && "2"[..0] == [];
    }
    assert s[5..6] == "1" && s[7..] == " 5";
    assert s[..8] == "2024-1- ";
    assert MonthStart(s) == "2024-1- " + "01" && s == "2024-1- " + "5";
    TextLeConcat("2024-1- ", "01", "2024-1- ", "5");
  }
}
