/**
 * The quiz timer's display: elapsed milliseconds shown as `MM:SS`, or as
 * `HH:MM:SS` from the first full hour on, each field zero-padded to two
 * digits.
 */
module TimeFormat {
  import opened Text

  datatype Clock = Clock(hours: nat, minutes: nat, seconds: nat)

  /** `x == 60 * a + b` with `0 <= b < 60` determines `x / 60` and `x % 60`. */
  lemma DivMod60(x: nat, a: nat, b: nat)
    requires x == 60 * a + b && b < 60
    ensures x / 60 == a && x % 60 == b
  {
  }

  /**
   * The whole seconds elapsed, split into hours, minutes and seconds: the
   * minutes and seconds are below 60, and the fields add back up to the whole
   * seconds.
   */
  function Split(milliseconds: nat): (c: Clock)
    ensures c.minutes < 60 && c.seconds < 60
    ensures c.hours * 3600 + c.minutes * 60 + c.seconds == milliseconds / 1000
  {
    var total := milliseconds / 1000;
    var withinHour := total % 3600;
    DivMod60(total, 60 * (total / 3600) + withinHour / 60, withinHour % 60);
    Clock(total / 3600, withinHour / 60, total % 60)
  }

  /** `s.padStart(2, '0')` */
  function PadStart2(s: string): (r: string)
    ensures |r| == if |s| >= 2 then |s| else 2
    ensures r[|r| - |s|..] == s
    ensures forall i :: 0 <= i < |r| - |s| ==> r[i] == '0'
  {
    if |s| >= 2 then s else if |s| == 1 then "0" + s else "00"
  }

  /** A leading zero does not change the number a string of digits denotes. */
  lemma {:induction false} LeadingZero(s: string)
    requires forall i :: 0 <= i < |s| ==> IsDigit(s[i])
    ensures DigitsValue("0" + s) == DigitsValue(s)
    decreases |s|
  {
    if s != [] {
      var init := s[..|s| - 1];
      LeadingZero(init);
      assert ("0" + s)[..|s|] == "0" + init;
    }
  }

  /** Numbers below 100 have at most two digits. */
  lemma ShortRendering(n: nat)
    ensures n < 100 ==> |NatToString(n)| <= 2
  {
    if 10 <= n < 100 {
      assert NatToString(n / 10) == [DigitChar(n / 10)];
    }
  }

  /** `n.toString().padStart(2, '0')`: at least two characters, exactly two below 100. */
  function Field(n: nat): (r: string)
    ensures |r| >= 2
    ensures n < 100 ==> |r| == 2
  {
    ShortRendering(n);
    PadStart2(NatToString(n))
  }

  /** A field is a string of digits that reads back as its number. */
  lemma FieldReadsBack(n: nat)
    ensures ReadsAs(Field(n), n)
  {
    var d := NatToString(n);
    NatToStringRoundTrip(n);
    LeadingZero(d);
  }

  /** Padding never truncates: the field ends with the whole decimal rendering, preceded only by zeros. */
  lemma FieldKeepsDigits(n: nat)
    ensures var r, d := Field(n), NatToString(n);
      |d| <= |r| && r[|r| - |d|..] == d && forall i :: 0 <= i < |r| - |d| ==> r[i] == '0'
  {
  }

  /** `a:b`, or `h:a:b` when the hours are shown. */
  function Layout(h: string, a: string, b: string, withHours: bool): string {
    if withHours then h + ":" + a + ":" + b else a + ":" + b
  }

  /** The display of a clock: `MM:SS` without hours, `HH:MM:SS` with. */
  function Display(c: Clock): string {
    Layout(Field(c.hours), Field(c.minutes), Field(c.seconds), c.hours > 0)
  }

  /** `formatTime` */
  function FormatTime(milliseconds: nat): string {
    Display(Split(milliseconds))
  }

  /** `s` is a string of decimal digits denoting `n`. */
  predicate ReadsAs(s: string, n: nat) {
    (forall i :: 0 <= i < |s| ==> IsDigit(s[i])) && DigitsValue(s) == n
  }

  /**
   * Below an hour the display is `MM:SS`; from an hour on it is the hours,
   * padded to at least two digits, a `:`, and then `MM:SS`. In both cases the digit groups read back as the
   * fields, which add up to the whole seconds elapsed.
   */
  lemma FormatTimeReadsBack(milliseconds: nat)
    ensures var r := FormatTime(milliseconds);
            var c := Split(milliseconds);
      && |r| >= 5 && r[|r| - 3] == ':'
      && ReadsAs(r[|r| - 5..|r| - 3], c.minutes)
      && ReadsAs(r[|r| - 2..], c.seconds)
      && (c.hours == 0 <==> |r| == 5)
      && (c.hours > 0 ==> |r| >= 8 && r[|r| - 6] == ':' && ReadsAs(r[..|r| - 6], c.hours))
      && c.hours * 3600 + c.minutes * 60 + c.seconds == milliseconds / 1000
  {
    var c := Split(milliseconds);
    var r := FormatTime(milliseconds);
    assert r == Display(c);
    DisplayReadsBack(c);
    assert ReadsAs(r[|r| - 5..|r| - 3], c.minutes);
    assert ReadsAs(r[|r| - 2..], c.seconds);
  }

  /** The digit groups of a display read back as the clock's fields. */
  lemma DisplayReadsBack(c: Clock)
    requires c.minutes < 60 && c.seconds < 60
    ensures var r := Display(c);
      && |r| >= 5 && r[|r| - 3] == ':'
      && ReadsAs(r[|r| - 5..|r| - 3], c.minutes)
      && ReadsAs(r[|r| - 2..], c.seconds)
      && (c.hours == 0 <==> |r| == 5)
      && (c.hours > 0 ==> |r| >= 8 && r[|r| - 6] == ':' && ReadsAs(r[..|r| - 6], c.hours))
  {
    LayoutPieces(Field(c.hours), Field(c.minutes), Field(c.seconds), c.hours > 0);
    FieldReadsBack(c.minutes);
    FieldReadsBack(c.seconds);
    FieldReadsBack(c.hours);
  }

  /** Where the pieces of `a:b` and `h:a:b` sit, for two-character `a` and `b`. */
  lemma LayoutPieces(h: string, a: string, b: string, withHours: bool)
    requires |h| >= 1 && |a| == 2 && |b| == 2
    ensures var r := Layout(h, a, b, withHours);
      && |r| >= 5 && r[|r| - 3] == ':' && r[|r| - 5..|r| - 3] == a && r[|r| - 2..] == b
      && (!withHours <==> |r| == 5)
      && (withHours ==> r[|r| - 6] == ':' && r[..|r| - 6] == h)
  {
    if withHours {
      var r := h + ":" + a + ":" + b;
      assert r == h + (":" + a + ":" + b);
    }
  }
}
