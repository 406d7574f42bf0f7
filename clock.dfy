/** Clock times written "HH:MM" and their conversion to minutes since midnight. */
module Clock {

  predicate IsDigit(ch: char) {
    '0' <= ch <= '9'
  }

  predicate AllDigits(s: string) {
    forall k :: 0 <= k < |s| ==> IsDigit(s[k])
  }

  function DigitValue(ch: char): (d: nat)
    requires IsDigit(ch)
    ensures d < 10
  {
    (ch as int) - ('0' as int)
  }

  function DigitChar(d: nat): (ch: char)
    requires d < 10
    ensures IsDigit(ch) && DigitValue(ch) == d
  {
    (('0' as int) + d) as char
  }

  /** The decimal value of a string of digits, as JavaScript's Number gives it. */
  function DigitsValue(s: string): nat
    requires AllDigits(s)
  {
    if |s| == 0 then 0 else DigitsValue(s[..|s| - 1]) * 10 + DigitValue(s[|s| - 1])
  }

  /** Position of the first ':' of `s`, or |s| when there is none. */
  function ColonIndex(s: string): (p: nat)
    ensures p <= |s|
    ensures p < |s| ==> s[p] == ':'
    ensures forall k :: 0 <= k < p ==> s[k] != ':'
  {
    if |s| == 0 then 0
    else if s[0] == ':' then 0
    else 1 + ColonIndex(s[1..])
  }

  /** A sufficient condition for timeToMinutes to give a number rather than
      NaN: non-empty runs of digits on both sides of a single ':'. */
  predicate IsClockTime(s: string) {
    var p := ColonIndex(s);
    0 < p < |s| - 1 && AllDigits(s[..p]) && AllDigits(s[p + 1..])
  }

  /** timeToMinutes: hours times 60 plus minutes, the two fields being what
      splitting at ':' yields. */
  function TimeToMinutes(s: string): nat
    requires IsClockTime(s)
  {
    var p := ColonIndex(s);
    DigitsValue(s[..p]) * 60 + DigitsValue(s[p + 1..])
  }

  /** The two-digit "HH:MM" form the catalog writes its times in. */
  predicate IsPaddedTime(s: string) {
    |s| == 5 && IsDigit(s[0]) && IsDigit(s[1]) && s[2] == ':'
    && '0' <= s[3] <= '5' && IsDigit(s[4])
  }

  /** Writes a minute count below 100 hours as "HH:MM". */
  function FormatTime(m: nat): (s: string)
    requires m < 6000
    ensures IsPaddedTime(s)
  {
    var h, mm := m / 60, m % 60;
    [DigitChar(h / 10), DigitChar(h % 10), ':', DigitChar(mm / 10), DigitChar(mm % 10)]
  }

  lemma TwoDigits(s: string)
    requires |s| == 2 && AllDigits(s)
    ensures DigitsValue(s) == DigitValue(s[0]) * 10 + DigitValue(s[1])
  {
    assert s[..1] == [s[0]] && s[..1][..0] == [];
    assert DigitsValue(s[..1]) == DigitValue(s[0]);
  }

  lemma PaddedIsClockTime(s: string)
    requires IsPaddedTime(s)
    ensures IsClockTime(s) && ColonIndex(s) == 2
    ensures TimeToMinutes(s) == (DigitValue(s[0]) * 10 + DigitValue(s[1])) * 60
                                + DigitValue(s[3]) * 10 + DigitValue(s[4])
  {
    assert s[0] != ':' && s[1] != ':';
    assert ColonIndex(s[2..]) == 0;
    assert ColonIndex(s[1..]) == 1 by { assert s[1..][1..] == s[2..]; }
    assert ColonIndex(s) == 2 by { assert s[1..] == s[1..]; }
    TwoDigits(s[..2]);
    TwoDigits(s[3..]);
  }

  /** Reading back a formatted time gives the minutes it was made from. */
  lemma FormatThenParse(m: nat)
    requires m < 6000
    ensures IsClockTime(FormatTime(m)) && TimeToMinutes(FormatTime(m)) == m
  {
    PaddedIsClockTime(FormatTime(m));
  }

  /** Formatting the minutes of a padded time gives that time back. */
  lemma ParseThenFormat(s: string)
    requires IsPaddedTime(s)
    ensures IsClockTime(s) && TimeToMinutes(s) < 6000 && FormatTime(TimeToMinutes(s)) == s
  {
    PaddedIsClockTime(s);
    var m := TimeToMinutes(s);
    var h := DigitValue(s[0]) * 10 + DigitValue(s[1]);
    var mm := DigitValue(s[3]) * 10 + DigitValue(s[4]);
    assert mm < 60;
    assert m / 60 == h && m % 60 == mm;
    assert h / 10 == DigitValue(s[0]) && h % 10 == DigitValue(s[1]);
    assert mm / 10 == DigitValue(s[3]) && mm % 10 == DigitValue(s[4]);
    var f := FormatTime(m);
    assert f[0] == s[0] && f[1] == s[1] && f[3] == s[3] && f[4] == s[4];
  }

  /** The bounds of the work windows, in minutes. */
  lemma WorkWindowBounds()
    ensures IsClockTime("09:00") && TimeToMinutes("09:00") == 540
    ensures IsClockTime("14:00") && TimeToMinutes("14:00") == 840
    ensures IsClockTime("18:00") && TimeToMinutes("18:00") == 1080
  {
    PaddedIsClockTime("09:00");
    PaddedIsClockTime("14:00");
    PaddedIsClockTime("18:00");
  }
}
