/** The elapsed-time display: a "MM:SS" string that is read back, advanced by
    one second and written out again once a second. */
module Clock {

  datatype Option<T> = None | Some(value: T)

  /** Minutes and seconds as read from the display. */
  datatype Clock = Clock(mins: nat, secs: nat)

  /** Elapsed time in seconds. */
  function Seconds(c: Clock): nat {
    c.mins * 60 + c.secs
  }

  /** The canonical clock showing `n` seconds. */
  function FromSeconds(n: nat): (c: Clock) {
    Clock(n / 60, n % 60)
  }

  /** One second later: 59 seconds roll over into the next minute. */
  function Next(c: Clock): (r: Clock)
    ensures Seconds(r) == Seconds(c) + 1
    ensures c.secs < 60 ==> r.secs < 60 && r == FromSeconds(Seconds(c) + 1)
  {
    if c.secs == 59 then Clock(c.mins + 1, 0) else Clock(c.mins, c.secs + 1)
  }

  // Decimal text of natural numbers, as Number.prototype.toString and Number() treat it.

  predicate IsDigit(ch: char) {
    '0' <= ch <= '9'
  }

  predicate AllDigits(s: string) {
    forall i :: 0 <= i < |s| ==> IsDigit(s[i])
  }

  function DigitChar(d: nat): (ch: char)
    requires d < 10
    ensures IsDigit(ch)
  {
    (48 + d) as char
  }

  function DigitValue(ch: char): nat
    requires IsDigit(ch)
  {
    ch as int - 48
  }

  /** The decimal digits of `n`, without leading zeros. */
  function Decimal(n: nat): (s: string)
    ensures 1 <= |s| && AllDigits(s)
    ensures n < 10 <==> |s| == 1
    ensures n >= 10 ==> s[0] != '0'
    ensures n < 100 ==> |s| <= 2
  {
    if n < 10 then [DigitChar(n)] else Decimal(n / 10) + [DigitChar(n % 10)]
  }

  /** The number a digit string denotes; the empty string denotes 0. */
  function DecimalValue(s: string): nat
    requires AllDigits(s)
  {
    if s == [] then 0 else DecimalValue(s[..|s| - 1]) * 10 + DigitValue(s[|s| - 1])
  }

  /** Left padding with '0' to at least two characters. */
  function PadTwo(s: string): (r: string)
    ensures |r| == if |s| < 2 then 2 else |s|
    ensures r[|r| - |s|..] == s
    ensures forall i :: 0 <= i < |r| - |s| ==> r[i] == '0'
  {
    if |s| == 0 then "00" else if |s| == 1 then "0" + s else s
  }

  /** The display text "MM:SS" of a clock. */
  function Text(c: Clock): (r: string)
    ensures ':' in r
  {
    PadTwo(Decimal(c.mins)) + ":" + PadTwo(Decimal(c.secs))
  }

  /** A number below 100 is padded to exactly two digits. */
  lemma PadTwoShape(n: nat)
    requires n < 100
    ensures |PadTwo(Decimal(n))| == 2 && AllDigits(PadTwo(Decimal(n)))
  {
  }

  /** Below 100 minutes the display is exactly five characters: two digits, ':', two digits. */
  lemma TextShape(c: Clock)
    requires c.mins < 100 && c.secs < 60
    ensures |Text(c)| == 5 && Text(c)[2] == ':'
    ensures forall i :: 0 <= i < 5 && i != 2 ==> IsDigit(Text(c)[i])
  {
    PadTwoShape(c.mins);
    PadTwoShape(c.secs);
  }

  /** The index of the first ':' of `t`, or |t| if there is none. */
  function ColonIndex(t: string): (i: nat)
    ensures i <= |t|
    ensures forall j :: 0 <= j < i ==> t[j] != ':'
    ensures i < |t| ==> t[i] == ':'
  {
    if t == [] || t[0] == ':' then 0 else 1 + ColonIndex(t[1..])
  }

  /** Reads the display text back: the fields before the first and second ':',
      each read as a decimal number. Text that is not of that form gives None. */
  function Parse(t: string): (r: Option<Clock>)
    ensures r.Some? ==> ColonIndex(t) < |t| && AllDigits(t[..ColonIndex(t)])
    ensures AllDigits(t) ==> r.None?
  {
    var i := ColonIndex(t);
    if i == |t| then None
    else
      var rest := t[i + 1..];
      var minsText, secsText := t[..i], rest[..ColonIndex(rest)];
      if AllDigits(minsText) && AllDigits(secsText)
      then Some(Clock(DecimalValue(minsText), DecimalValue(secsText)))
      else None
  }

  lemma {:induction false} DecimalValueOfDecimal(n: nat)
    ensures DecimalValue(Decimal(n)) == n
  {
    if n >= 10 {
      var s := Decimal(n);
      assert s[..|s| - 1] == Decimal(n / 10);
      DecimalValueOfDecimal(n / 10);
    }
  }

  lemma {:induction false} LeadingZero(s: string)
    requires AllDigits(s)
    ensures AllDigits("0" + s) && DecimalValue("0" + s) == DecimalValue(s)
  {
    if s != [] {
      var z := "0" + s;
      assert z[..|z| - 1] == "0" + s[..|s| - 1];
      LeadingZero(s[..|s| - 1]);
    }
  }

  /** Padding a nonempty digit string keeps its digits and its value. */
  lemma PadTwoValue(s: string)
    requires 1 <= |s| && AllDigits(s)
    ensures AllDigits(PadTwo(s)) && DecimalValue(PadTwo(s)) == DecimalValue(s)
  {
    if |s| == 1 {
      LeadingZero(s);
    }
  }

  lemma ColonAfter(u: string, v: string)
    requires AllDigits(u)
    ensures ColonIndex(u + ":" + v) == |u|
  {
    assert (u + ":" + v)[|u|] == ':';
  }

  lemma NoColon(u: string)
    requires AllDigits(u)
    ensures ColonIndex(u) == |u|
  {
  }

  /** Two digit fields joined by ':' read back as their two values. */
  lemma ParseFields(m: string, s: string)
    requires AllDigits(m) && AllDigits(s)
    ensures Parse(m + ":" + s) == Some(Clock(DecimalValue(m), DecimalValue(s)))
  {
    var t := m + ":" + s;
    ColonAfter(m, s);
    assert t[..|m|] == m;
    assert t[|m| + 1..] == s;
    NoColon(s);
    assert s[..ColonIndex(s)] == s;
  }

  /** Reading back what the clock writes gives the same clock. */
  lemma TextRoundTrip(c: Clock)
    ensures Parse(Text(c)) == Some(c)
  {
    PadTwoValue(Decimal(c.mins));
    PadTwoValue(Decimal(c.secs));
    DecimalValueOfDecimal(c.mins);
    DecimalValueOfDecimal(c.secs);
    ParseFields(PadTwo(Decimal(c.mins)), PadTwo(Decimal(c.secs)));
  }

  /** "00:00" is the text of the zero clock. */
  lemma ZeroText()
    ensures Text(Clock(0, 0)) == "00:00"
  {
    assert Decimal(0) == "0";
  }

  /** "00:59" reads back as 0 minutes 59 seconds. */
  lemma Parse059()
    ensures Parse("00:59") == Some(Clock(0, 59))
  {
    assert Text(Clock(0, 59)) == "00:59" by {
      assert Decimal(0) == "0";
      assert Decimal(59) == Decimal(5) + "9";
    }
    TextRoundTrip(Clock(0, 59));
  }

  /** "00:59" reads back as 0 minutes 59 seconds and is followed by "01:00". */
  lemma MinuteCarry()
    ensures Parse("00:59") == Some(Clock(0, 59))
    ensures Text(Next(Clock(0, 59))) == "01:00"
  {
    Parse059();
    assert Decimal(0) == "0" && Decimal(1) == "1";
  }
}
