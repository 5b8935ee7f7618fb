/** Shared vocabulary of both generations of the clinic backend: optional
    values, the appointment status column, ASCII text helpers, Python-style
    string ordering and the decimal formatting behind receipt numbers and
    "HH:MM" clock strings. */
module Common {

  datatype Option<T> = None | Some(value: T)

  /** The four values the handlers ever write into an appointment's
      `status` column ("PENDING", "CONFIRMED", "COMPLETED", "BLOCKED"). */
  datatype Status = Pending | Confirmed | Completed | Blocked

  // ---------------------------------------------------------------------
  // ASCII case folding and substring search (Python `str.lower`, `in`)
  // ---------------------------------------------------------------------

  function LowerChar(c: char): char {
    if 'A' <= c <= 'Z' then (c as int + 32) as char else c
  }

  /** ASCII stand-in for Python's `str.lower()`: no capital is left, each
      capital becomes the small letter 32 code points later, and every other
      character is kept. */
  function Lower(s: string): (r: string)
    ensures |r| == |s|
    ensures forall i :: 0 <= i < |r| ==> !('A' <= r[i] <= 'Z')
    ensures forall i :: 0 <= i < |s| && 'A' <= s[i] <= 'Z' ==> r[i] as int == s[i] as int + 32
    ensures forall i :: 0 <= i < |s| && !('A' <= s[i] <= 'Z') ==> r[i] == s[i]
  {
    seq(|s|, i requires 0 <= i < |s| => LowerChar(s[i]))
  }

  lemma LowerIdempotent(s: string)
    ensures Lower(Lower(s)) == Lower(s)
  {
    assert forall i :: 0 <= i < |s| ==> Lower(Lower(s))[i] == Lower(s)[i];
  }

  /** Python's `p in s` on strings: `p` occurs as a contiguous block of `s`.
      The empty string occurs in every string. */
  predicate OccursIn(p: string, s: string) {
    exists i | 0 <= i <= |s| - |p| :: OccursAt(p, s, i)
  }

  predicate OccursAt(p: string, s: string, i: int) {
    0 <= i <= |s| - |p| && s[i..i + |p|] == p
  }

  lemma EmptyOccursEverywhere(s: string)
    ensures OccursIn("", s)
  {
    assert OccursAt("", s, 0);
  }

  // ---------------------------------------------------------------------
  // String order: Python `<=` on str and SQLite's BINARY collation agree
  // on code-point lexicographic order
  // ---------------------------------------------------------------------

  predicate LexLess(a: string, b: string)
    decreases |a|
  {
    if a == [] then b != []
    else if b == [] then false
    else if a[0] != b[0] then a[0] < b[0]
    else LexLess(a[1..], b[1..])
  }

  predicate LexLe(a: string, b: string) {
    a == b || LexLess(a, b)
  }

  lemma {:induction false} LexLessIrreflexive(a: string)
    ensures !LexLess(a, a)
    decreases |a|
  {
    if a != [] {
      LexLessIrreflexive(a[1..]);
    }
  }

  lemma {:induction false} LexLessTransitive(a: string, b: string, c: string)
    requires LexLess(a, b) && LexLess(b, c)
    ensures LexLess(a, c)
    decreases |a|
  {
    if a != [] && b != [] && c != [] && a[0] == b[0] && b[0] == c[0] {
      LexLessTransitive(a[1..], b[1..], c[1..]);
    }
  }

  lemma {:induction false} LexLessTotal(a: string, b: string)
    ensures a == b || LexLess(a, b) || LexLess(b, a)
    decreases |a|
  {
    if a != [] && b != [] && a[0] == b[0] {
      LexLessTotal(a[1..], b[1..]);
      if a[1..] == b[1..] {
        assert a == [a[0]] + a[1..] && b == [b[0]] + b[1..];
      }
    }
  }

  /** Strings that agree up to position `k` and differ there are ordered by
      their characters at `k`. */
  lemma {:induction false} LexLessAt(a: string, b: string, k: nat)
    requires k < |a| && k < |b| && a[..k] == b[..k] && a[k] < b[k]
    ensures LexLess(a, b)
    decreases k
  {
    if k > 0 {
      assert a[0] == a[..k][0] && b[0] == b[..k][0];
      assert a[1..][..k - 1] == a[..k][1..] && b[1..][..k - 1] == b[..k][1..];
      LexLessAt(a[1..], b[1..], k - 1);
    }
  }

  /** `LexLe` is a total order: in particular a range `[lo, hi]` whose
      upper end lies strictly below its lower end contains no string. */
  lemma LexLeTransitive(a: string, b: string, c: string)
    requires LexLe(a, b) && LexLe(b, c)
    ensures LexLe(a, c)
  {
    if LexLess(a, b) && LexLess(b, c) {
      LexLessTransitive(a, b, c);
    }
  }

  lemma LexLeEmptyRange(lo: string, x: string, hi: string)
    requires LexLess(hi, lo)
    ensures !(LexLe(lo, x) && LexLe(x, hi))
  {
    if LexLe(lo, x) && LexLe(x, hi) {
      LexLeTransitive(lo, x, hi);
      if lo == hi {
        LexLessIrreflexive(lo);
      } else {
        LexLessTransitive(hi, lo, hi);
        LexLessIrreflexive(hi);
      }
    }
  }

  // ---------------------------------------------------------------------
  // Decimal digits: Python `str(n)` and the `{n:0Wd}` format
  // ---------------------------------------------------------------------

  predicate IsDigit(c: char) {
    '0' <= c <= '9'
  }

  predicate AllDigits(s: string) {
    forall i :: 0 <= i < |s| ==> IsDigit(s[i])
  }

  function DigitChar(d: nat): (c: char)
    requires d < 10
    ensures IsDigit(c) && DigitValue(c) == d
  {
    ('0' as int + d) as char
  }

  function DigitValue(c: char): nat
    requires IsDigit(c)
  {
    c as int - '0' as int
  }

  /** The number a string of decimal digits denotes (leading zeros allowed). */
  function DecimalValue(s: string): nat
    requires AllDigits(s)
  {
    if s == [] then 0 else DecimalValue(s[..|s| - 1]) * 10 + DigitValue(s[|s| - 1])
  }

  /** Python's `str(n)` for a non-negative integer: the shortest decimal
      spelling, which reads back as `n`. */
  function Decimal(n: nat): (r: string)
    ensures 1 <= |r| && AllDigits(r)
    ensures DecimalValue(r) == n
    ensures |r| == 1 || r[0] != '0'
  {
    if n < 10 then [DigitChar(n)]
    else
      var prefix := Decimal(n / 10);
      var r := prefix + [DigitChar(n % 10)];
      assert r[..|r| - 1] == prefix;
      r
  }

  lemma DecimalOfSmall(n: nat)
    requires n < 100
    ensures |Decimal(n)| <= 2
  {
    if n >= 10 {
      assert |Decimal(n / 10)| == 1;
    }
  }

  lemma DecimalOfFourDigits(n: nat)
    requires n < 10000
    ensures |Decimal(n)| <= 4
  {
    if n >= 10 {
      if n / 10 >= 10 {
        DecimalOfSmall(n / 100);
      }
    }
  }

  function Zeros(k: nat): (r: string)
    ensures |r| == k && forall i :: 0 <= i < k ==> r[i] == '0'
  {
    seq(k, _ => '0')
  }

  lemma {:induction false} ZerosValue(k: nat)
    ensures AllDigits(Zeros(k)) && DecimalValue(Zeros(k)) == 0
  {
    if k > 0 {
      assert Zeros(k)[..k - 1] == Zeros(k - 1);
      ZerosValue(k - 1);
    }
  }

  /** Leading zeros do not change the value a digit string denotes. */
  lemma {:induction false} LeadingZerosValue(k: nat, s: string)
    requires AllDigits(s)
    ensures AllDigits(Zeros(k) + s) && DecimalValue(Zeros(k) + s) == DecimalValue(s)
    decreases |s|
  {
    var t := Zeros(k) + s;
    if s == [] {
      assert t == Zeros(k);
      ZerosValue(k);
    } else {
      assert t[..|t| - 1] == Zeros(k) + s[..|s| - 1];
      LeadingZerosValue(k, s[..|s| - 1]);
    }
  }

  /** Python's `f"{n:0{width}d}"` for a non-negative `n`: the decimal
      spelling of `n`, left-padded with '0' to at least `width` characters.
      It is a digit string that reads back as `n`. */
  function ZeroPad(n: nat, width: nat): (r: string)
    ensures |r| == if |Decimal(n)| < width then width else |Decimal(n)|
    ensures AllDigits(r) && DecimalValue(r) == n
  {
    var d := Decimal(n);
    var pad := if |d| < width then width - |d| else 0;
    LeadingZerosValue(pad, d);
    Zeros(pad) + d
  }

  /** Padded numbers of equal width identify the number they spell. */
  lemma ZeroPadInjective(m: nat, n: nat, width: nat)
    requires ZeroPad(m, width) == ZeroPad(n, width)
    ensures m == n
  {
  }

  // ---------------------------------------------------------------------
  // Clock strings "HH:MM" (Python `strftime("%H:%M")`)
  // ---------------------------------------------------------------------

  const MinutesPerDay: int := 1440

  predicate IsClockText(s: string) {
    |s| == 5 && IsDigit(s[0]) && IsDigit(s[1]) && s[2] == ':' && IsDigit(s[3]) && IsDigit(s[4])
  }

  /** Minute of the day an "HH:MM" string names. */
  function ClockValue(s: string): int
    requires IsClockText(s)
  {
    DecimalValue(s[..2]) * 60 + DecimalValue(s[3..])
  }

  /** "HH:MM" text of a minute of the day (`strftime("%H:%M")`). */
  function ClockText(m: int): string
    requires 0 <= m < MinutesPerDay
  {
    ZeroPad(m / 60, 2) + ":" + ZeroPad(m % 60, 2)
  }

  /** A clock string is well formed and reads back as its minute. */
  lemma ClockTextReadsBack(m: int)
    requires 0 <= m < MinutesPerDay
    ensures IsClockText(ClockText(m)) && ClockValue(ClockText(m)) == m
    ensures DecimalValue(ClockText(m)[3..]) == m % 60
  {
    DecimalOfSmall(m / 60);
    DecimalOfSmall(m % 60);
    var h := ZeroPad(m / 60, 2);
    var mm := ZeroPad(m % 60, 2);
    var r := ClockText(m);
    assert r[..2] == h && r[3..] == mm;
  }

  /** The minutes part of a clock string. */
  lemma ClockTextMinutes(m: int)
    requires 0 <= m < MinutesPerDay
    ensures |ClockText(m)| >= 3 && ClockText(m)[3..] == ZeroPad(m % 60, 2)
  {
    DecimalOfSmall(m / 60);
  }

  /** The two characters `{n:02d}` produces for a number below 100. */
  lemma TwoDigitPad(n: nat)
    requires n < 100
    ensures ZeroPad(n, 2) == [DigitChar(n / 10), DigitChar(n % 10)]
  {
    if n < 10 {
      assert Decimal(n) == [DigitChar(n)];
      assert Zeros(1) == ['0'];
    } else {
      assert Decimal(n / 10) == [DigitChar(n / 10)];
    }
  }

  /** The five characters of a clock string, digit by digit. */
  lemma ClockTextDigits(m: int)
    requires 0 <= m < MinutesPerDay
    ensures ClockText(m) == [DigitChar(m / 60 / 10), DigitChar(m / 60 % 10), ':', DigitChar(m % 60 / 10), DigitChar(m % 60 % 10)]
  {
    TwoDigitPad(m / 60);
    TwoDigitPad(m % 60);
  }

  lemma ClockTextInjective(m: int, n: int)
    requires 0 <= m < MinutesPerDay && 0 <= n < MinutesPerDay
    requires ClockText(m) == ClockText(n)
    ensures m == n
  {
    ClockTextReadsBack(m);
    ClockTextReadsBack(n);
  }
}
