/** `formatTime`: whole seconds shown as `h:mm:ss` from one hour on and as
    `m:ss` below it, with the seconds always two digits wide and the minutes
    two wide only when hours are shown. A time of zero leaves the text as it
    was, which the model returns as `None`. A reader of the two shapes,
    `ParseClock`, inverts it. */
module Clock {
  import opened Opt

  predicate IsDigit(c: char) {
    '0' <= c <= '9'
  }

  predicate AllDigits(s: string) {
    forall i :: 0 <= i < |s| ==> IsDigit(s[i])
  }

  function DigitChar(d: nat): (c: char)
    requires d < 10
    ensures IsDigit(c)
  {
    (48 + d) as char
  }

  function DigitValue(c: char): nat {
    if IsDigit(c) then c as int - 48 else 0
  }

  /** A non-negative integer as JavaScript's template literals print it. */
  function Decimal(n: nat): (s: string)
    ensures 1 <= |s|
    ensures AllDigits(s)
    ensures |s| == 1 <==> n < 10
  {
    if n < 10 then [DigitChar(n)] else Decimal(n / 10) + [DigitChar(n % 10)]
  }

  /** Reads a string of decimal digits. */
  function ParseDecimal(s: string): nat {
    if |s| == 0 then 0 else ParseDecimal(s[..|s| - 1]) * 10 + DigitValue(s[|s| - 1])
  }

  lemma {:induction false} DecimalRoundTrip(n: nat)
    ensures ParseDecimal(Decimal(n)) == n
  {
    if n >= 10 {
      var s := Decimal(n);
      assert s[..|s| - 1] == Decimal(n / 10);
      DecimalRoundTrip(n / 10);
    }
  }

  /** `n < 10 ? '0' + n : n`. */
  function Pad2(n: nat): (s: string)
    requires n < 100
    ensures |s| == 2 && AllDigits(s)
    ensures ParseDecimal(s) == n
  {
    DecimalRoundTrip(n);
    if n < 10 then
      assert ParseDecimal("0") == 0;
      assert ("0" + Decimal(n))[..1] == "0";
      "0" + Decimal(n)
    else Decimal(n)
  }

  /** The colon-separated fields of a string. */
  function Fields(s: string): (r: seq<string>)
    ensures 1 <= |r|
  {
    if |s| == 0 then [""]
    else
      var rest := Fields(s[1..]);
      if s[0] == ':' then [""] + rest else [[s[0]] + rest[0]] + rest[1..]
  }

  lemma {:induction false} FieldsOfPlain(a: string)
    requires AllDigits(a)
    ensures Fields(a) == [a]
  {
    if |a| > 0 {
      FieldsOfPlain(a[1..]);
      assert [a[0]] + a[1..] == a;
    }
  }

  lemma {:induction false} FieldsOfJoin(a: string, b: string)
    requires AllDigits(a)
    ensures Fields(a + ":" + b) == [a] + Fields(b)
  {
    if |a| == 0 {
      assert a + ":" + b == [':'] + b;
      assert (a + ":" + b)[1..] == b;
    } else {
      assert (a + ":" + b)[1..] == a[1..] + ":" + b;
      FieldsOfJoin(a[1..], b);
      assert [a[0]] + a[1..] == a;
    }
  }

  /** A digit field that does not start with a padding zero unless it is "0". */
  predicate Unpadded(s: string) {
    AllDigits(s) && 1 <= |s| && (s[0] == '0' ==> |s| == 1)
  }

  /** The two shapes `formatTime` writes: `m:ss` with fewer than 60 minutes,
      and `h:mm:ss` with h > 0; minutes and seconds are below 60. */
  predicate ClockShape(s: string) {
    var f := Fields(s);
    && (|f| == 2 || |f| == 3)
    && Unpadded(f[0])
    && (|f| == 2 ==> ParseDecimal(f[0]) < 60)
    && (|f| == 3 ==> f[0] != "0" && |f[1]| == 2 && AllDigits(f[1]) && ParseDecimal(f[1]) < 60)
    && |f[|f| - 1]| == 2 && AllDigits(f[|f| - 1]) && ParseDecimal(f[|f| - 1]) < 60
  }

  /** Reads `m:ss` or `h:mm:ss` back into seconds. */
  function ParseClock(s: string): Option<nat> {
    var f := Fields(s);
    if |f| == 2 then Some(ParseDecimal(f[0]) * 60 + ParseDecimal(f[1]))
    else if |f| == 3 then Some(ParseDecimal(f[0]) * 3600 + ParseDecimal(f[1]) * 60 + ParseDecimal(f[2]))
    else None
  }

  lemma UnpaddedDecimal(n: nat)
    ensures Unpadded(Decimal(n))
  {
  }

  lemma {:induction false} LeadingDigit(n: nat)
    requires n >= 1
    ensures Decimal(n)[0] != '0'
  {
    if n >= 10 {
      LeadingDigit(n / 10);
    }
  }

  /** The hour, minute and second components `formatTime` computes. */
  function Hours(t: nat): nat { t / 3600 }
  function Minutes(t: nat): (m: nat) ensures m < 60 { (t % 3600) / 60 }
  function Seconds(t: nat): (s: nat) ensures s < 60 { t % 60 }

  lemma Components(t: nat)
    ensures Hours(t) * 3600 + Minutes(t) * 60 + Seconds(t) == t
  {
  }

  /** `formatTime(t)`: the new text of the element, or `None` when `t` is zero
      and the element keeps its text. */
  function FormatTime(t: nat): (r: Option<string>)
    ensures r.None? <==> t == 0
    ensures r.Some? ==> ClockShape(r.value)
    ensures r.Some? ==> (|Fields(r.value)| == 3 <==> t >= 3600)
    ensures r.Some? ==>
      var f := Fields(r.value);
      && ParseDecimal(f[|f| - 1]) == Seconds(t)
      && ParseDecimal(f[|f| - 2]) == Minutes(t)
      && (|f| == 3 ==> ParseDecimal(f[0]) == Hours(t))
  {
    var h := Hours(t);
    var m := Minutes(t);
    var ss := Pad2(Seconds(t));
    var mm := if h > 0 then Pad2(m) else Decimal(m);
    if t == 0 then None
    else if h > 0 then
      UnpaddedDecimal(h);
      LeadingDigit(h);
      FieldsOfJoin(Decimal(h), mm + ":" + ss);
      FieldsOfJoin(mm, ss);
      FieldsOfPlain(ss);
      DecimalRoundTrip(h);
      assert Decimal(h) + ":" + mm + ":" + ss == Decimal(h) + ":" + (mm + ":" + ss);
      Some(Decimal(h) + ":" + mm + ":" + ss)
    else
      UnpaddedDecimal(m);
      DecimalRoundTrip(m);
      FieldsOfJoin(Decimal(m), ss);
      FieldsOfPlain(ss);
      Some(Decimal(m) + ":" + ss)
  }

  /** The text an element shows after `formatTime(t, el)`. */
  function ShowTime(t: nat, current: string): (text: string)
    ensures t == 0 ==> text == current
    ensures t > 0 ==> ClockShape(text)
    ensures t > 0 ==> ParseClock(text) == Some(t)
  {
    if t > 0 then FormatTimeRoundTrip(t); FormatTime(t).value else current
  }

  /** Round trip: reading the formatted text gives back the seconds. */
  lemma FormatTimeRoundTrip(t: nat)
    requires t > 0
    ensures ParseClock(FormatTime(t).value) == Some(t)
  {
    Components(t);
    var f := Fields(FormatTime(t).value);
    if t >= 3600 {
      assert |f| == 3;
    } else {
      assert |f| == 2 && Hours(t) == 0;
    }
  }

  /** Different positive times never print the same text. */
  lemma FormatTimeInjective(t: nat, u: nat)
    requires t > 0 && u > 0 && FormatTime(t) == FormatTime(u)
    ensures t == u
  {
    FormatTimeRoundTrip(t);
    FormatTimeRoundTrip(u);
  }

  /** Sample time 65 s prints `1:05`. */
  lemma FormatTimeExample65()
    ensures FormatTime(65) == Some("1:05")
  {
    assert Hours(65) == 0 && Minutes(65) == 1 && Seconds(65) == 5;
    assert Decimal(1) == "1" && Decimal(5) == "5";
    assert Pad2(5) == "05";
    assert FormatTime(65).value == Decimal(1) + ":" + Pad2(5);
    assert "1" + ":" + "05" == "1:05";
  }

  /** Sample time 3661 s prints `1:01:01`. */
  lemma FormatTimeExample3661()
    ensures FormatTime(3661) == Some("1:01:01")
  {
    assert Hours(3661) == 1 && Minutes(3661) == 1 && Seconds(3661) == 1;
    assert Decimal(1) == "1";
    assert Pad2(1) == "01";
    assert FormatTime(3661).value == Decimal(1) + ":" + Pad2(1) + ":" + Pad2(1);
    assert "1" + ":" + "01" + ":" + "01" == "1:01:01";
  }

  /** Sample time 3605 s prints `1:00:05`, and zero leaves the text alone. */
  lemma FormatTimeExample3605()
    ensures FormatTime(3605) == Some("1:00:05")
    ensures FormatTime(0) == None
  {
    assert Hours(3605) == 1 && Minutes(3605) == 0 && Seconds(3605) == 5;
    assert Decimal(1) == "1" && Decimal(0) == "0" && Decimal(5) == "5";
    assert Pad2(5) == "05" && Pad2(0) == "00";
    assert FormatTime(3605).value == Decimal(1) + ":" + Pad2(0) + ":" + Pad2(5);
    assert "1" + ":" + "00" + ":" + "05" == "1:00:05";
  }
}
