/** `formatTime` of `ExerciseDetailViewModel`:
    `String.format("%02d:%02d", seconds / 60, seconds % 60)` on a Kotlin `Int`.
    Kotlin's `/` truncates toward zero and `%` takes the sign of the
    dividend; `%02d` zero-pads a non-negative value to two digits and prints
    a negative one as `-` followed by its digits. */
module TimeFormat {
  import opened Wrappers
  import opened Domain

  /** Kotlin's `a / b` for `b > 0`: rounds toward zero. */
  function Quot(a: int, b: int): (q: int)
    requires b > 0
  {
    if a >= 0 then a / b else -((-a) / b)
  }

  /** Kotlin's `a % b` for `b > 0`: the remainder has the sign of `a`. */
  function Rem(a: int, b: int): (r: int)
    requires b > 0
  {
    if a >= 0 then a % b else -((-a) % b)
  }

  /** Truncating division and its remainder recombine to the dividend, and
      the remainder is smaller than the divisor with the dividend's sign. */
  lemma QuotRem(a: int, b: int)
    requires b > 0
    ensures Quot(a, b) * b + Rem(a, b) == a
    ensures a >= 0 ==> 0 <= Rem(a, b) < b && Quot(a, b) >= 0
    ensures a < 0 ==> -b < Rem(a, b) <= 0 && Quot(a, b) <= 0
  {
  }

  predicate IsDigit(c: char) {
    '0' <= c <= '9'
  }

  predicate AllDigits(s: string) {
    forall i :: 0 <= i < |s| ==> IsDigit(s[i])
  }

  function DigitChar(d: nat): (c: char)
    requires d < 10
    ensures IsDigit(c) && c as int - '0' as int == d
  {
    ('0' as int + d) as char
  }

  /** The decimal digits of `n`, most significant first, without leading zeros. */
  function Decimal(n: nat): (s: string)
    ensures 1 <= |s| && AllDigits(s)
    ensures |s| == 1 <==> n < 10
    ensures n > 0 ==> s[0] != '0'
    decreases n
  {
    if n < 10 then [DigitChar(n)] else Decimal(n / 10) + [DigitChar(n % 10)]
  }

  /** The number a string of decimal digits denotes; the reference reading
      of `Decimal`. */
  function Value(s: string): (n: nat)
    requires AllDigits(s)
    decreases |s|
  {
    if |s| == 0 then 0 else Value(s[..|s| - 1]) * 10 + (s[|s| - 1] as int - '0' as int)
  }

  lemma {:induction false} ValueOfDecimal(n: nat)
    ensures Value(Decimal(n)) == n
    decreases n
  {
    if n >= 10 {
      var s := Decimal(n);
      assert s[..|s| - 1] == Decimal(n / 10);
      ValueOfDecimal(n / 10);
    }
  }

  /** A leading zero does not change the value. */
  lemma {:induction false} ValueLeadingZero(s: string)
    requires AllDigits(s)
    ensures AllDigits("0" + s) && Value("0" + s) == Value(s)
    decreases |s|
  {
    if |s| > 0 {
      var z := "0" + s;
      assert z[..|z| - 1] == "0" + s[..|s| - 1];
      ValueLeadingZero(s[..|s| - 1]);
    }
  }

  /** Java's `%02d`. */
  function Pad2(n: int): (s: string)
    ensures n >= 0 ==> AllDigits(s) && |s| >= 2 && Value(s) == n
    ensures 0 <= n < 100 ==> |s| == 2
    ensures n < 0 ==> |s| >= 2 && s[0] == '-' && AllDigits(s[1..]) && Value(s[1..]) == -n
    ensures n >= 10 ==> s[0] != '0'
    ensures n < 0 ==> s[1] != '0'
    ensures ':' !in s
  {
    ValueOfDecimal(if n < 0 then -n else n);
    if n < 0 then
      var s := "-" + Decimal(-n);
      assert s[1..] == Decimal(-n);
      s
    else if n < 10 then
      ValueLeadingZero(Decimal(n));
      "0" + Decimal(n)
    else Decimal(n)
  }

  /** `formatTime`: minutes, a colon, seconds. Whatever the sign, reading the
      two fields back recombines to the input, and the seconds field is below
      60 in magnitude with the input's sign; for 0 to 5999 seconds the result
      is exactly `MM:SS`. */
  function FormatTime(seconds: int32): (t: string)
    ensures ParseTime(t) == Some(seconds as int)
    ensures SplitAtColon(t).Some? && ParseField(SplitAtColon(t).value.1).Some?
    ensures var sec := ParseField(SplitAtColon(t).value.1).value;
            && -60 < sec < 60
            && (seconds >= 0 ==> sec >= 0)
            && (seconds <= 0 ==> sec <= 0)
    ensures 0 <= seconds < 6000 ==> |t| == 5 && t[2] == ':' && AllDigits(t[..2]) && AllDigits(t[3..])
    ensures seconds >= 600 ==> t[0] != '0'
    ensures seconds >= 0 ==> AllDigits(SplitAtColon(t).value.0) && AllDigits(SplitAtColon(t).value.1)
    ensures seconds >= 0 ==> exists k :: 0 <= k < |t| && t[k] == ':' && |t[k + 1..]| == 2
  {
    var s := seconds as int;
    var m := Pad2(Quot(s, 60));
    var r := Pad2(Rem(s, 60));
    var t := m + ":" + r;
    QuotRem(s, 60);
    SplitFirst(m, r);
    ParsePad2(Quot(s, 60));
    ParsePad2(Rem(s, 60));
    assert t[|m|] == ':' && t[|m| + 1..] == r;
    assert 0 <= s < 6000 ==> t[..2] == m && t[3..] == r;
    assert t[0] == m[0];
    t
  }

  /** Splits a string at its first colon. */
  function SplitAtColon(t: string): (r: Option<(string, string)>)
    ensures r.Some? ==> t == r.value.0 + ":" + r.value.1 && ':' !in r.value.0
    ensures r.None? ==> ':' !in t
    decreases |t|
  {
    if |t| == 0 then None
    else if t[0] == ':' then Some(([], t[1..]))
    else
      match SplitAtColon(t[1..])
      case None => None
      case Some((a, b)) => Some(([t[0]] + a, b))
  }

  lemma SplitFirst(a: string, b: string)
    requires ':' !in a
    ensures SplitAtColon(a + ":" + b) == Some((a, b))
  {
    var t := a + ":" + b;
    assert t[|a|] == ':';
    var r := SplitAtColon(t);
    var (a', b') := r.value;
    assert forall i :: 0 <= i < |a| ==> t[i] == a[i] && a[i] != ':';
    assert forall i :: 0 <= i < |a'| ==> t[i] == a'[i] && a'[i] != ':';
    assert t[|a'|] == ':';
    assert |a| == |a'|;
    assert a' == t[..|a|] == a;
    assert b' == t[|a| + 1..] == b;
  }

  /** Reads one field printed by `%d`: an optional minus sign and digits. */
  function ParseField(f: string): (r: Option<int>) {
    if |f| > 1 && f[0] == '-' && AllDigits(f[1..]) then Some(0 - Value(f[1..]))
    else if |f| > 0 && AllDigits(f) then Some(Value(f))
    else None
  }

  lemma ParsePad2(n: int)
    ensures ParseField(Pad2(n)) == Some(n)
  {
  }

  /** Reads `minutes:seconds` back to a number of seconds. */
  function ParseTime(t: string): (r: Option<int>) {
    match SplitAtColon(t)
    case None => None
    case Some((a, b)) =>
      match (ParseField(a), ParseField(b))
      case (Some(m), Some(s)) => Some(m * 60 + s)
      case _ => None
  }

  lemma Pad2Small()
    ensures Pad2(0) == "00" && Pad2(1) == "01" && Pad2(2) == "02" && Pad2(30) == "30"
  {
    assert Decimal(30) == Decimal(3) + [DigitChar(0)];
  }

  /** Values the view-model tests check: under a minute. */
  lemma FormatExamples()
    ensures FormatTime(30) == "00:30"
    ensures FormatTime(0) == "00:00"
  {
    Pad2Small();
    assert Quot(30, 60) == 0 && Rem(30, 60) == 30;
    assert Quot(0, 60) == 0 && Rem(0, 60) == 0;
  }

  /** Values the view-model tests check: whole and half minutes. */
  lemma FormatMinuteExamples()
    ensures FormatTime(60) == "01:00"
    ensures FormatTime(150) == "02:30"
  {
    Pad2Small();
    assert Quot(60, 60) == 1 && Rem(60, 60) == 0;
    assert Quot(150, 60) == 2 && Rem(150, 60) == 30;
  }
}
