/** Times of day as the application stores them: zero-padded 24-hour
    "HH:MM" strings, compared with the string operators of JavaScript and
    Ruby. */
module TimeOfDay {

  import opened Common

  /** `a < b` on strings: lexicographic order on character codes, where a
      proper prefix comes first. JavaScript and Ruby both define `<=` and
      `>=` on strings as the negations of `>` and `<`. */
  predicate Before(a: string, b: string)
    decreases |a|
  {
    |b| > 0 && (|a| == 0 || a[0] < b[0] || (a[0] == b[0] && Before(a[1..], b[1..])))
  }

  /** `a <= b` on strings. */
  predicate AtMost(a: string, b: string) {
    !Before(b, a)
  }

  lemma {:induction false} BeforeIrreflexive(a: string)
    ensures !Before(a, a)
  {
    if |a| > 0 {
      BeforeIrreflexive(a[1..]);
    }
  }

  lemma {:induction false} BeforeTransitive(a: string, b: string, c: string)
    requires Before(a, b) && Before(b, c)
    ensures Before(a, c)
  {
    if |a| > 0 && a[0] == b[0] && b[0] == c[0] {
      BeforeTransitive(a[1..], b[1..], c[1..]);
    }
  }

  /** Any two different strings are ordered one way or the other. */
  lemma {:induction false} BeforeTotal(a: string, b: string)
    ensures a == b || Before(a, b) || Before(b, a)
  {
    if |a| > 0 && |b| > 0 && a[0] == b[0] {
      BeforeTotal(a[1..], b[1..]);
      if a[1..] == b[1..] {
        assert a == [a[0]] + a[1..] && b == [b[0]] + b[1..];
      }
    }
  }

  lemma BeforeAsymmetric(a: string, b: string)
    requires Before(a, b)
    ensures !Before(b, a)
  {
    if Before(b, a) {
      BeforeTransitive(a, b, a);
      BeforeIrreflexive(a);
    }
  }

  /** The strict order `Before` and the reflexive order `AtMost` agree:
      `a <= b` holds exactly when `a < b` or `a == b`. */
  lemma AtMostIsBeforeOrEqual(a: string, b: string)
    ensures AtMost(a, b) <==> (Before(a, b) || a == b)
  {
    BeforeTotal(a, b);
    BeforeIrreflexive(a);
    if Before(a, b) {
      BeforeAsymmetric(a, b);
    }
  }

  // ---------------------------------------------------------------------
  // Zero-padded "HH:MM"

  predicate IsDigit(c: char) {
    '0' <= c <= '9'
  }

  function DigitValue(c: char): (d: nat)
    requires IsDigit(c)
    ensures d <= 9
  {
    c as int - '0' as int
  }

  function DigitChar(d: nat): (c: char)
    requires d <= 9
    ensures IsDigit(c) && DigitValue(c) == d
  {
    ('0' as int + d) as char
  }

  /** A well-formed time of day: two digits for an hour below 24, a colon,
      two digits for a minute below 60. */
  predicate WellFormedTime(t: string) {
    && |t| == 5
    && IsDigit(t[0]) && IsDigit(t[1]) && t[2] == ':' && IsDigit(t[3]) && IsDigit(t[4])
    && 10 * DigitValue(t[0]) + DigitValue(t[1]) < 24
    && 10 * DigitValue(t[3]) + DigitValue(t[4]) < 60
  }

  function Hour(t: string): (h: nat)
    requires WellFormedTime(t)
    ensures h < 24
  {
    10 * DigitValue(t[0]) + DigitValue(t[1])
  }

  function Minute(t: string): (m: nat)
    requires WellFormedTime(t)
    ensures m < 60
  {
    10 * DigitValue(t[3]) + DigitValue(t[4])
  }

  /** Minutes since midnight. */
  function ToMinutes(t: string): (n: nat)
    requires WellFormedTime(t)
    ensures n < 24 * 60
    ensures n == 60 * Hour(t) + Minute(t)
  {
    60 * Hour(t) + Minute(t)
  }

  /** `n.toString().padStart(2, '0')` for a number below 100. */
  function Pad2(n: nat): (s: string)
    requires n < 100
    ensures |s| == 2 && IsDigit(s[0]) && IsDigit(s[1])
    ensures 10 * DigitValue(s[0]) + DigitValue(s[1]) == n
  {
    [DigitChar(n / 10), DigitChar(n % 10)]
  }

  /** The "HH:MM" string of hour `h` and minute `m`. */
  function FormatTime24(h: nat, m: nat): (t: string)
    requires h < 24 && m < 60
    ensures WellFormedTime(t) && Hour(t) == h && Minute(t) == m
    ensures ToMinutes(t) == 60 * h + m
  {
    Pad2(h) + ":" + Pad2(m)
  }

  /** A well-formed time is the string of its own hour and minute, so a
      well-formed time is determined by its minute count. */
  lemma {:induction false} FormatOfParts(t: string)
    requires WellFormedTime(t)
    ensures FormatTime24(Hour(t), Minute(t)) == t
  {
    var u := FormatTime24(Hour(t), Minute(t));
    DigitValueInjective(u[0], t[0], Hour(t) / 10);
    DigitValueInjective(u[1], t[1], Hour(t) % 10);
    DigitValueInjective(u[3], t[3], Minute(t) / 10);
    DigitValueInjective(u[4], t[4], Minute(t) % 10);
    assert u == t;
  }

  lemma DigitValueInjective(c: char, d: char, v: nat)
    requires IsDigit(c) && IsDigit(d) && DigitValue(c) == v && DigitValue(d) == v
    ensures c == d
  {
  }

  lemma {:induction false} ToMinutesInjective(a: string, b: string)
    requires WellFormedTime(a) && WellFormedTime(b)
    requires ToMinutes(a) == ToMinutes(b)
    ensures a == b
  {
    FormatOfParts(a);
    FormatOfParts(b);
  }

  /** On well-formed times, string order is time order: the reason the
      application can compare "HH:MM" strings directly. */
  lemma {:induction false} BeforeIsEarlier(a: string, b: string)
    requires WellFormedTime(a) && WellFormedTime(b)
    ensures Before(a, b) <==> ToMinutes(a) < ToMinutes(b)
  {
    UnfoldBefore(a, b);
  }

  /** `Before` on two well-formed times, written out position by position. */
  lemma {:induction false} UnfoldBefore(a: string, b: string)
    requires WellFormedTime(a) && WellFormedTime(b)
    ensures Before(a, b) <==>
      (a[0] < b[0] || (a[0] == b[0] &&
      (a[1] < b[1] || (a[1] == b[1] &&
      (a[3] < b[3] || (a[3] == b[3] && a[4] < b[4]))))))
  {
    var a1, b1 := a[1..], b[1..];
    var a2, b2 := a1[1..], b1[1..];
    var a3, b3 := a2[1..], b2[1..];
    var a4, b4 := a3[1..], b3[1..];
    var a5, b5 := a4[1..], b4[1..];
    assert a5 == [] && b5 == [];
    assert !Before(a5, b5);
    assert Before(a4, b4) <==> a[4] < b[4];
    assert Before(a3, b3) <==> a[3] < b[3] || (a[3] == b[3] && a[4] < b[4]);
    assert Before(a2, b2) <==> Before(a3, b3);
  }

  lemma AtMostIsNoLater(a: string, b: string)
    requires WellFormedTime(a) && WellFormedTime(b)
    ensures AtMost(a, b) <==> ToMinutes(a) <= ToMinutes(b)
  {
    BeforeIsEarlier(b, a);
  }

  // ---------------------------------------------------------------------
  // 12-hour display

  /** `hour % 12 || 12`: the hour on a 12-hour clock. */
  function Hour12(h: nat): (r: nat)
    ensures 1 <= r <= 12
    ensures r % 12 == h % 12
  {
    if h % 12 == 0 then 12 else h % 12
  }

  function Meridiem(h: nat): (s: string)
    ensures s == "AM" || s == "PM"
  {
    if h >= 12 then "PM" else "AM"
  }

  /** The 24-hour hour named by a 12-hour hour and its AM/PM marker. */
  function Hour24(h12: nat, pm: bool): nat {
    if pm then h12 % 12 + 12 else h12 % 12
  }

  lemma Hour12RoundTrip(h: nat)
    requires h < 24
    ensures Hour24(Hour12(h), Meridiem(h) == "PM") == h
  {
  }

  /** `String(n)` for 1 <= n <= 12: no leading zero. */
  function SmallDecimal(n: nat): (s: string)
    requires 1 <= n <= 12
    ensures 1 <= |s| <= 2 && forall i :: 0 <= i < |s| ==> IsDigit(s[i])
    ensures DecimalValue(s) == n && s[0] != '0'
  {
    if n < 10 then
      var s := [DigitChar(n)];
      assert s[..0] == [];
      s
    else
      var s := ['1', DigitChar(n - 10)];
      assert s[..1] == ['1'] && s[..1][..0] == [];
      assert DigitValue('1') == 1 && DecimalValue(s[..1]) == 1;
      s
  }

  /** `formatTime`: "HH:MM" shown as "h:MM AM" or "h:MM PM". */
  function FormatTime12(t: string): (r: string)
    requires WellFormedTime(t)
    ensures 7 <= |r| <= 8
    ensures r[|r| - 2..] == Meridiem(Hour(t)) && r[|r| - 6..|r| - 3] == t[2..5] && r[|r| - 3] == ' '
    ensures forall i :: 0 <= i < |r| - 6 ==> IsDigit(r[i])
    ensures DecimalValue(r[..|r| - 6]) == Hour12(Hour(t)) && r[0] != '0'
  {
    var hour := SmallDecimal(Hour12(Hour(t)));
    var r := hour + t[2..5] + " " + Meridiem(Hour(t));
    assert r[..|hour|] == hour && r[|hour| + 3] == ' ';
    r
  }

  /** Value of a string of decimal digits; 0 for the empty string. */
  function DecimalValue(s: string): nat
    requires forall i :: 0 <= i < |s| ==> IsDigit(s[i])
  {
    if s == [] then 0 else 10 * DecimalValue(s[..|s| - 1]) + DigitValue(s[|s| - 1])
  }

  /** Reads a "h:MM AM" / "h:MM PM" string back into "HH:MM"; the inverse
      of `FormatTime12`. */
  function ParseTime12(s: string): (r: Option<string>)
    ensures r.Some? ==> WellFormedTime(r.value)
  {
    if |s| < 7 || |s| > 8 then None
    else
      var n := |s| - 6;
      var hourPart, minutePart, marker := s[..n], s[n + 1..n + 3], s[n + 4..];
      if !(forall i :: 0 <= i < n ==> IsDigit(s[i])) || s[n] != ':' || s[n + 3] != ' '
        || !IsDigit(minutePart[0]) || !IsDigit(minutePart[1])
        || (marker != "AM" && marker != "PM")
      then None
      else
        var h12 := DecimalValue(hourPart);
        var m := 10 * DigitValue(minutePart[0]) + DigitValue(minutePart[1]);
        if h12 < 1 || h12 > 12 || m >= 60 then None
        else Some(FormatTime24(Hour24(h12, marker == "PM"), m))
  }

  lemma {:induction false} FormatTime12RoundTrip(t: string)
    requires WellFormedTime(t)
    ensures ParseTime12(FormatTime12(t)) == Some(t)
  {
    var h := Hour(t);
    var r := FormatTime12(t);
    var digits := SmallDecimal(Hour12(h));
    var n := |digits|;
    assert |r| - 6 == n;
    assert r[..n] == digits;
    assert r[n] == ':' && r[n + 3] == ' ';
    assert r[n + 1..n + 3] == t[3..5];
    assert r[n + 4..] == Meridiem(h);
    assert DecimalValue(digits) == Hour12(h);
    Hour12RoundTrip(h);
    FormatOfParts(t);
  }
}
