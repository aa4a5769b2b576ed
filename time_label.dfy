/**
 * Parsing of a snapshot's `Time` label ("HH:MM:SS.ffffff") into a time of
 * day in milliseconds: the label is split at every ':' and '.', the first
 * three fields are hours, minutes and seconds, and the first three digits of
 * the fourth field are the milliseconds.
 */
module TimeLabel {
  import opened Wrappers

  predicate IsSeparator(c: char) { c == ':' || c == '.' }

  predicate IsDigit(c: char) { '0' <= c <= '9' }

  predicate NoSeparator(s: string) { forall i :: 0 <= i < |s| ==> !IsSeparator(s[i]) }

  predicate IsDigits(s: string) { forall i :: 0 <= i < |s| ==> IsDigit(s[i]) }

  /** Number of separator characters in `s`. */
  function SeparatorCount(s: string): nat
  {
    if s == [] then 0 else (if IsSeparator(s[0]) then 1 else 0) + SeparatorCount(s[1..])
  }

  /** Splitting at every separator, as `split(/[:.]/)`: empty fields are kept. */
  function Split(s: string): (parts: seq<string>)
    ensures |parts| == SeparatorCount(s) + 1
    ensures forall k :: 0 <= k < |parts| ==> NoSeparator(parts[k])
  {
    if s == [] then [[]]
    else if IsSeparator(s[0]) then [[]] + Split(s[1..])
    else
      var rest := Split(s[1..]);
      assert NoSeparator(rest[0]);
      [[s[0]] + rest[0]] + rest[1..]
  }

  /** A field without separators is not split. */
  lemma {:induction false} SplitField(a: string)
    requires NoSeparator(a)
    ensures Split(a) == [a]
  {
    if a != [] {
      SplitField(a[1..]);
      assert [a[0]] + a[1..] == a;
    }
  }

  /** A field followed by a separator is split off as the first part. */
  lemma {:induction false} SplitAtSeparator(a: string, c: char, b: string)
    requires NoSeparator(a) && IsSeparator(c)
    ensures Split(a + [c] + b) == [a] + Split(b)
  {
    if a == [] {
      assert a + [c] + b == [c] + b;
      assert ([c] + b)[1..] == b;
    } else {
      SplitAtSeparator(a[1..], c, b);
      var s := a + [c] + b;
      assert s[0] == a[0] && s[1..] == a[1..] + [c] + b;
      assert [a[0]] + a[1..] == a;
    }
  }

  function Pow10(n: nat): (p: nat)
    ensures p >= 1
  {
    if n == 0 then 1 else 10 * Pow10(n - 1)
  }

  /** The decimal value of a string of digits. */
  function DigitsValue(s: string): (v: nat)
    requires IsDigits(s)
    ensures v < Pow10(|s|)
  {
    if s == [] then 0
    else DigitsValue(s[..|s| - 1]) * 10 + (s[|s| - 1] as int - '0' as int)
  }

  /** `parseInt(s, 10)` on a field: None stands for NaN (an empty or non-digit field). */
  function ParseField(s: string): Option<nat>
  {
    if |s| > 0 && IsDigits(s) then Some(DigitsValue(s)) else None
  }

  /** `s.substring(0, n)`: the first n characters, or all of s when it is shorter. */
  function Prefix(s: string, n: nat): string
  {
    if |s| <= n then s else s[..n]
  }

  /** The time of day that `setHours(h, m, s, ms)` denotes, in milliseconds since midnight. */
  function TimeOfDayMs(h: nat, m: nat, s: nat, ms: nat): nat
  {
    h * 3600000 + m * 60000 + s * 1000 + ms
  }

  /**
   * The timestamp of a label. None when the label has fewer than four fields
   * (the source throws when it reads the missing fourth field) or when one
   * of the fields used is not a non-empty run of digits.
   */
  function ParseTime(text: string): (r: Option<int>)
    ensures r.Some? ==> r.value >= 0
  {
    var parts := Split(text);
    if |parts| < 4 then None
    else
      match (ParseField(parts[0]), ParseField(parts[1]), ParseField(parts[2]), ParseField(Prefix(parts[3], 3)))
      case (Some(h), Some(m), Some(s), Some(ms)) => Some(TimeOfDayMs(h, m, s, ms))
      case _ => None
  }

  /** A label with fewer than three separators has no fourth field and yields no timestamp. */
  lemma MissingFractionRejected(text: string)
    requires SeparatorCount(text) < 3
    ensures ParseTime(text).None?
  {
  }

  /** The label "h:m:s.f" built from digit fields. */
  function FormatLabel(h: string, m: string, s: string, f: string): string
  {
    h + ":" + m + ":" + s + "." + f
  }

  lemma DigitsHaveNoSeparator(s: string)
    requires IsDigits(s)
    ensures NoSeparator(s)
  {
  }

  lemma SplitLabel(h: string, m: string, s: string, f: string)
    requires IsDigits(h) && IsDigits(m) && IsDigits(s) && IsDigits(f)
    ensures Split(FormatLabel(h, m, s, f)) == [h, m, s, f]
  {
    DigitsHaveNoSeparator(h);
    DigitsHaveNoSeparator(m);
    DigitsHaveNoSeparator(s);
    DigitsHaveNoSeparator(f);
    SplitField(f);
    SplitAtSeparator(s, '.', f);
    assert s + "." + f == s + ['.'] + f;
    SplitAtSeparator(m, ':', s + "." + f);
    assert m + ":" + s + "." + f == m + [':'] + (s + "." + f);
    SplitAtSeparator(h, ':', m + ":" + s + "." + f);
    assert FormatLabel(h, m, s, f) == h + [':'] + (m + ":" + s + "." + f);
  }

  /**
   * A well-formed label parses to its hours, minutes and seconds and the
   * first three digits of its fraction as milliseconds; a label with
   * hours < 24, minutes < 60 and seconds < 60 lies within one day.
   */
  lemma ParseFormattedLabel(h: string, m: string, s: string, f: string)
    requires IsDigits(h) && IsDigits(m) && IsDigits(s) && IsDigits(f)
    requires |h| > 0 && |m| > 0 && |s| > 0 && |f| >= 3
    ensures ParseTime(FormatLabel(h, m, s, f))
         == Some(TimeOfDayMs(DigitsValue(h), DigitsValue(m), DigitsValue(s), DigitsValue(f[..3])))
    ensures DigitsValue(h) < 24 && DigitsValue(m) < 60 && DigitsValue(s) < 60 ==>
              ParseTime(FormatLabel(h, m, s, f)).value < 86400000
  {
    SplitLabel(h, m, s, f);
    assert Prefix(f, 3) == f[..3];
    assert Pow10(3) == 1000;
  }

  /**
   * A fraction of one to three digits is taken whole as the milliseconds,
   * so "h:m:s.5" is 5 ms past the second, not 500.
   */
  lemma ParseShortFraction(h: string, m: string, s: string, f: string)
    requires IsDigits(h) && IsDigits(m) && IsDigits(s) && IsDigits(f)
    requires |h| > 0 && |m| > 0 && |s| > 0 && 1 <= |f| <= 3
    ensures ParseTime(FormatLabel(h, m, s, f))
         == Some(TimeOfDayMs(DigitsValue(h), DigitsValue(m), DigitsValue(s), DigitsValue(f)))
  {
    SplitLabel(h, m, s, f);
    assert Prefix(f, 3) == f;
  }

  /** Digits of the fraction past the third (the microseconds) do not affect the timestamp. */
  lemma MicrosecondsIgnored(h: string, m: string, s: string, f: string, g: string)
    requires IsDigits(h) && IsDigits(m) && IsDigits(s) && IsDigits(f) && IsDigits(g)
    requires |h| > 0 && |m| > 0 && |s| > 0 && |f| == 3
    ensures ParseTime(FormatLabel(h, m, s, f + g)) == ParseTime(FormatLabel(h, m, s, f))
  {
    ParseFormattedLabel(h, m, s, f);
    ParseFormattedLabel(h, m, s, f + g);
    assert (f + g)[..3] == f[..3];
  }

  lemma SmallDigitValues()
    ensures DigitsValue("12") == 12 && DigitsValue("30") == 30 && DigitsValue("45") == 45
    ensures DigitsValue("123") == 123
  {
    assert "12"[..1] == "1" && "30"[..1] == "3" && "45"[..1] == "4";
    assert "123"[..2] == "12";
  }

  /** "12:30:45.123456" is 45045123 ms after midnight. */
  lemma ExampleLabel()
    ensures ParseTime(FormatLabel("12", "30", "45", "123456")) == Some(45045123)
  {
    var f := "123456";
    ParseFormattedLabel("12", "30", "45", f);
    assert f[..3] == "123";
    SmallDigitValues();
    assert TimeOfDayMs(12, 30, 45, 123) == 45045123;
  }
}
