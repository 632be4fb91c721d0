/**
 * The focus timer's `formatTime(seconds)`: minutes and seconds, each
 * rendered with JavaScript's `Number.prototype.toString()` and left-padded
 * with `padStart(2, '0')`, joined by a colon.
 *
 * The JavaScript pieces are written out: `Math.floor(seconds / 60)` is a
 * floor division, `seconds % 60` a truncating remainder (its sign follows
 * the dividend), `toString()` of an integer gives its decimal digits with
 * a leading minus sign for negative values, and `padStart` only ever
 * prepends, never truncates.
 */
module TimeFormat {

  datatype Option<T> = None | Some(value: T)

  predicate IsDigit(c: char) {
    '0' <= c <= '9'
  }

  predicate AllDigits(s: string) {
    forall i :: 0 <= i < |s| ==> IsDigit(s[i])
  }

  function DigitValue(c: char): (d: nat)
    requires IsDigit(c)
    ensures d < 10
  {
    (c as int) - ('0' as int)
  }

  function DigitChar(d: nat): (c: char)
    requires d < 10
    ensures IsDigit(c) && DigitValue(c) == d
  {
    (('0' as int) + d) as char
  }

  /** `n.toString()` for a non-negative integer: its decimal digits, no leading zeros. */
  function NatToString(n: nat): (s: string)
    ensures AllDigits(s)
    ensures 1 <= |s|
    ensures |s| > 1 ==> s[0] != '0'
    decreases n
  {
    if n < 10 then [DigitChar(n)] else NatToString(n / 10) + [DigitChar(n % 10)]
  }

  /** `n.toString()` for any integer. */
  function IntToString(n: int): (s: string)
    ensures n >= 0 ==> s == NatToString(n)
    ensures n < 0 <==> (|s| > 0 && s[0] == '-')
    ensures n < 0 ==> s[1..] == NatToString(-n)
  {
    if n < 0 then "-" + NatToString(-n) else NatToString(n)
  }

  /** `n` copies of `c`. */
  function Repeat(c: char, n: nat): (r: string)
    ensures |r| == n
    ensures forall i :: 0 <= i < n ==> r[i] == c
  {
    if n == 0 then [] else Repeat(c, n - 1) + [c]
  }

  /** `s.padStart(target, [fill])`: prepend copies of `fill` up to length `target`; never truncate. */
  function PadStart(s: string, target: nat, fill: char): (r: string)
    ensures |r| == if |s| >= target then |s| else target
    ensures r[|r| - |s|..] == s
    ensures forall i :: 0 <= i < |r| - |s| ==> r[i] == fill
  {
    if |s| >= target then s else Repeat(fill, target - |s|) + s
  }

  /** `mins = Math.floor(seconds / 60)` (Dafny's `/` is Euclidean, which is the floor for a positive divisor). */
  function Minutes(seconds: int): (q: int)
    ensures q * 60 <= seconds < q * 60 + 60
  {
    seconds / 60
  }

  /** `secs = seconds % 60` with JavaScript's truncating `%`, whose sign follows the dividend. */
  function Seconds(seconds: int): (r: int)
    ensures seconds >= 0 ==> r == seconds % 60
    ensures seconds < 0 ==> -60 < r <= 0
    ensures (seconds - r) % 60 == 0
  {
    if seconds >= 0 then seconds % 60 else -((-seconds) % 60)
  }

  /** `n.toString().padStart(2, '0')`: `toString()` behind enough zeros to make two characters. */
  function TwoDigitField(n: int): (r: string)
    ensures |r| == if |IntToString(n)| >= 2 then |IntToString(n)| else 2
    ensures r[|r| - |IntToString(n)|..] == IntToString(n)
    ensures forall i :: 0 <= i < |r| - |IntToString(n)| ==> r[i] == '0'
  {
    PadStart(IntToString(n), 2, '0')
  }

  /** `formatTime(seconds)`. */
  function FormatTime(seconds: int): (r: string)
    ensures |r| >= 5
  {
    TwoDigitField(Minutes(seconds)) + ":" + TwoDigitField(Seconds(seconds))
  }

  // ---------------------------------------------------------------------
  // Reading a formatted time back

  /** The number a string of decimal digits denotes (leading zeros allowed). */
  function DigitsValue(s: string): (v: nat)
    requires AllDigits(s)
  {
    if s == [] then 0 else DigitsValue(s[..|s| - 1]) * 10 + DigitValue(s[|s| - 1])
  }

  /** Position of the first colon, if any. */
  function IndexOfColon(t: string): (r: Option<nat>)
    ensures r.Some? ==> r.value < |t| && t[r.value] == ':'
    ensures r.Some? ==> forall j :: 0 <= j < r.value ==> t[j] != ':'
    ensures r.None? ==> forall j :: 0 <= j < |t| ==> t[j] != ':'
  {
    if t == [] then None
    else if t[0] == ':' then Some(0)
    else match IndexOfColon(t[1..])
      case None => None
      case Some(i) => Some(i + 1)
  }

  /** Split `MM:SS` at its first colon and read both fields as decimal numbers. */
  function ParseTime(t: string): (r: Option<(nat, nat)>) {
    match IndexOfColon(t)
    case None => None
    case Some(i) =>
      var mins, secs := t[..i], t[i + 1..];
      if mins != [] && secs != [] && AllDigits(mins) && AllDigits(secs)
      then Some((DigitsValue(mins), DigitsValue(secs)))
      else None
  }

  // ---------------------------------------------------------------------
  // Lemmas

  /** One digit below 10, two below 100, three or more from 100 on. */
  lemma {:induction false} NatToStringLength(n: nat)
    ensures n < 10 <==> |NatToString(n)| == 1
    ensures n < 100 <==> |NatToString(n)| <= 2
    decreases n
  {
    if n >= 10 {
      NatToStringLength(n / 10);
    }
  }

  /** Reading back `toString()` gives the number. */
  lemma {:induction false} NatToStringValue(n: nat)
    ensures DigitsValue(NatToString(n)) == n
    decreases n
  {
    if n >= 10 {
      var s := NatToString(n);
      assert s[..|s| - 1] == NatToString(n / 10);
      NatToStringValue(n / 10);
    }
  }

  lemma {:induction false} ZerosValue(z: nat)
    ensures AllDigits(Repeat('0', z)) && DigitsValue(Repeat('0', z)) == 0
  {
    var zs := Repeat('0', z);
    if z > 0 {
      assert zs[..z - 1] == Repeat('0', z - 1);
      ZerosValue(z - 1);
      assert forall i :: 0 <= i < z - 1 ==> zs[i] == zs[..z - 1][i];
    }
  }

  /** Zero-padding on the left does not change the value. */
  lemma {:induction false} LeadingZerosValue(z: nat, s: string)
    requires AllDigits(s)
    ensures AllDigits(Repeat('0', z) + s)
    ensures DigitsValue(Repeat('0', z) + s) == DigitsValue(s)
    decreases |s|
  {
    var zs := Repeat('0', z);
    var t := zs + s;
    ZerosValue(z);
    if s == [] {
      assert t == zs;
    } else {
      assert t[..|t| - 1] == zs + s[..|s| - 1];
      LeadingZerosValue(z, s[..|s| - 1]);
    }
  }

  /** A padded field of a number below 100 is its two decimal digits. */
  lemma TwoDigitFieldExact(n: nat)
    requires n < 100
    ensures TwoDigitField(n) == [DigitChar(n / 10), DigitChar(n % 10)]
  {
    var s := NatToString(n);
    var r := TwoDigitField(n);
    assert IntToString(n) == s;
    if n < 10 {
      assert s == [DigitChar(n)];
      assert |r| == 2 && r[1..] == s && r[0] == '0';
      assert r[0] == DigitChar(n / 10) && r[1] == DigitChar(n % 10);
    } else {
      var q := n / 10;
      assert q < 10;
      assert NatToString(q) == [DigitChar(q)];
      assert s == [DigitChar(q), DigitChar(n % 10)];
      assert |r| == 2 && r[0..] == s;
    }
  }

  /** A padded field reads back as the number it shows. */
  lemma PaddedFieldValue(n: nat)
    ensures AllDigits(TwoDigitField(n)) && DigitsValue(TwoDigitField(n)) == n
  {
    var s := NatToString(n);
    NatToStringValue(n);
    if |s| < 2 {
      LeadingZerosValue(2 - |s|, s);
    }
  }

  /** A padded field of a non-negative number: at least two digits, exactly two below 100. */
  lemma FieldShape(n: nat)
    ensures |TwoDigitField(n)| >= 2 && AllDigits(TwoDigitField(n))
    ensures n < 100 ==> |TwoDigitField(n)| == 2
  {
    var s := NatToString(n);
    assert IntToString(n) == s;
    NatToStringLength(n);
    if |s| < 2 {
      LeadingZerosValue(2 - |s|, s);
    }
  }

  /** For a non-negative input the display is the padded minutes, a colon and the padded seconds. */
  lemma FormatTimeFields(s: int)
    requires s >= 0
    ensures FormatTime(s) == TwoDigitField(s / 60) + ":" + TwoDigitField(s % 60)
  {
  }

  lemma JoinShape(mins: string, secs: string)
    requires |mins| >= 2 && AllDigits(mins) && |secs| == 2 && AllDigits(secs)
    ensures var r := mins + ":" + secs;
      |r| >= 5 && r[|r| - 3] == ':' && AllDigits(r[..|r| - 3]) && AllDigits(r[|r| - 2..])
  {
    var r := mins + ":" + secs;
    assert r[..|r| - 3] == mins;
    assert r[|r| - 2..] == secs;
  }

  /** A digit field of at least two characters, a colon, and exactly two digits. */
  predicate ClockShape(r: string) {
    |r| >= 5 && r[|r| - 3] == ':' && AllDigits(r[..|r| - 3]) && AllDigits(r[|r| - 2..])
  }

  /**
   * For any non-negative input the display is a digit field of at least two
   * characters, a colon, and exactly two digits of seconds.
   */
  lemma FormatTimeShape(s: int)
    requires s >= 0
    ensures ClockShape(FormatTime(s))
  {
    FormatTimeFields(s);
    FieldsShape(s / 60, s % 60);
  }

  lemma FieldsShape(m: nat, k: nat)
    requires k < 60
    ensures ClockShape(TwoDigitField(m) + ":" + TwoDigitField(k))
  {
    FieldShape(m);
    FieldShape(k);
    JoinShape(TwoDigitField(m), TwoDigitField(k));
  }

  lemma JoinExact(m: nat, k: nat)
    requires m < 100 && k < 100
    ensures TwoDigitField(m) + ":" + TwoDigitField(k)
         == [DigitChar(m / 10), DigitChar(m % 10), ':', DigitChar(k / 10), DigitChar(k % 10)]
  {
    TwoDigitFieldExact(m);
    TwoDigitFieldExact(k);
    JoinChars(TwoDigitField(m), TwoDigitField(k),
              DigitChar(m / 10), DigitChar(m % 10), DigitChar(k / 10), DigitChar(k % 10));
  }

  lemma JoinChars(a: string, b: string, w: char, x: char, y: char, z: char)
    requires a == [w, x] && b == [y, z]
    ensures a + ":" + b == [w, x, ':', y, z]
  {
  }

  /** Below 100 minutes the display is exactly `MM:SS`. */
  lemma FormatTimeExact(s: int)
    requires 0 <= s < 6000
    ensures var m, k := s / 60, s % 60;
      FormatTime(s) == [DigitChar(m / 10), DigitChar(m % 10), ':', DigitChar(k / 10), DigitChar(k % 10)]
  {
    var m, k := s / 60, s % 60;
    assert m < 100 && k < 60;
    FormatTimeFields(s);
    JoinExact(m, k);
  }

  /** Three displays worked out digit by digit. */
  lemma FormatTimeExamples()
    ensures FormatTime(0) == "00:00"
    ensures FormatTime(65) == "01:05"
    ensures FormatTime(1500) == "25:00"
  {
    FormatZero();
    FormatSixtyFive();
    FormatFullSession();
  }

  lemma FormatZero()
    ensures FormatTime(0) == "00:00"
  {
    DigitChars();
    DisplayOf(0, '0', '0', '0', '0');
  }

  lemma FormatSixtyFive()
    ensures FormatTime(65) == "01:05"
  {
    DigitChars();
    DisplayOf(65, '0', '1', '0', '5');
  }

  lemma FormatFullSession()
    ensures FormatTime(1500) == "25:00"
  {
    DigitChars();
    DisplayOf(1500, '2', '5', '0', '0');
  }

  /** `FormatTimeExact` with the four digits named. */
  lemma DisplayOf(s: int, w: char, x: char, y: char, z: char)
    requires 0 <= s < 6000
    requires DigitChar(s / 60 / 10) == w && DigitChar(s / 60 % 10) == x
    requires DigitChar(s % 60 / 10) == y && DigitChar(s % 60 % 10) == z
    ensures FormatTime(s) == [w, x, ':', y, z]
  {
    FormatTimeExact(s);
  }

  lemma DigitChars()
    ensures DigitChar(0) == '0' && DigitChar(1) == '1' && DigitChar(2) == '2' && DigitChar(5) == '5'
  {
  }

  /** At 100 minutes or more the minutes field grows instead of wrapping or truncating. */
  lemma LongMinutesField(s: int)
    requires s >= 6000
    ensures |FormatTime(s)| == |NatToString(s / 60)| + 3 >= 6
  {
    FormatTimeFields(s);
    FieldShape(s % 60);
    NatToStringLength(s / 60);
    assert IntToString(s / 60) == NatToString(s / 60);
  }

  /** Reading the display back recovers the seconds: `m * 60 + k == s` with `k < 60`. */
  lemma FormatParseRoundTrip(s: int)
    requires s >= 0
    ensures ParseTime(FormatTime(s)) == Some((s / 60, s % 60))
    ensures s % 60 < 60 && (s / 60) * 60 + s % 60 == s
  {
    var mins, secs := TwoDigitField(s / 60), TwoDigitField(s % 60);
    FormatTimeFields(s);
    FieldShape(s / 60);
    FieldShape(s % 60);
    PaddedFieldValue(s / 60);
    PaddedFieldValue(s % 60);
    SplitAtColon(mins, secs);
  }

  /** A colon after a field of digits is the first colon, so the split gives the two fields back. */
  lemma SplitAtColon(mins: string, secs: string)
    requires AllDigits(mins)
    ensures var t := mins + ":" + secs;
      IndexOfColon(t) == Some(|mins|) && t[..|mins|] == mins && t[|mins| + 1..] == secs
  {
    var t := mins + ":" + secs;
    assert t[|mins|] == ':';
    assert forall j :: 0 <= j < |mins| ==> t[j] == mins[j];
    assert t[..|mins|] == mins;
    assert t[|mins| + 1..] == secs;
  }
}
