/**
 * The time strings of `generateTimeOptions()` in the client: two nested
 * loops, hours 9 to 21 and minutes 0 and 30, each pushing
 * `hour.toString().padStart(2, '0') + ':' + minutes.toString().padStart(2, '0')`.
 */
module TimeOptions {

  /** The decimal digit character of `d`. */
  function Digit(d: nat): (c: char)
    requires d < 10
    ensures '0' <= c <= '9' && c as int - '0' as int == d
  {
    ('0' as int + d) as char
  }

  /** `n.toString()` for a natural number. */
  function DecimalString(n: nat): (r: string)
    ensures |r| >= 1
    decreases n
  {
    if n < 10 then [Digit(n)] else DecimalString(n / 10) + [Digit(n % 10)]
  }

  /** `n` copies of `c`. */
  function Fill(c: char, n: nat): (r: string)
    ensures |r| == n && forall i :: 0 <= i < n ==> r[i] == c
  {
    if n == 0 then [] else Fill(c, n - 1) + [c]
  }

  /**
   * `s.padStart(width, fill)` with a one-character fill string: prepend
   * `fill` until `width` is reached. The result is `s` itself when it is
   * already wide enough, and otherwise fill characters followed by `s`.
   */
  function PadStart(s: string, width: nat, fill: char): (r: string)
    ensures r == if |s| >= width then s else Fill(fill, width - |s|) + s
    decreases width - |s|
  {
    if |s| >= width then s
    else
      var k := width - |s| - 1;
      assert Fill(fill, k) + ([fill] + s) == Fill(fill, k + 1) + s;
      PadStart([fill] + s, width, fill)
  }

  /** The `HH:MM` string the loop body builds for `hour` and `minutes`. */
  function TimeLabel(hour: nat, minutes: nat): string {
    PadStart(DecimalString(hour), 2, '0') + ":" + PadStart(DecimalString(minutes), 2, '0')
  }

  /** The value of a decimal digit character. */
  function DigitValue(c: char): int {
    c as int - '0' as int
  }

  /** A five-character `HH:MM` string: digits around a colon. */
  predicate IsClock(t: string) {
    |t| == 5 && t[2] == ':' && forall i :: 0 <= i < 5 && i != 2 ==> '0' <= t[i] <= '9'
  }

  /** Minutes since midnight that an `HH:MM` string denotes. */
  function MinutesOf(t: string): int
    requires |t| == 5
  {
    (DigitValue(t[0]) * 10 + DigitValue(t[1])) * 60 + DigitValue(t[3]) * 10 + DigitValue(t[4])
  }

  /** Zero-padding a number below 100 gives its two digits. */
  lemma TwoDigits(n: nat)
    requires n < 100
    ensures PadStart(DecimalString(n), 2, '0') == [Digit(n / 10), Digit(n % 10)]
  {
    if n >= 10 {
      assert DecimalString(n / 10) == [Digit(n / 10)];
    }
  }

  /** Reading a label back gives the time it was built from. */
  lemma TimeLabelRoundTrip(hour: nat, minutes: nat)
    requires hour < 100 && minutes < 100
    ensures IsClock(TimeLabel(hour, minutes))
    ensures MinutesOf(TimeLabel(hour, minutes)) == hour * 60 + minutes
  {
    TwoDigits(hour);
    TwoDigits(minutes);
    var t := TimeLabel(hour, minutes);
    assert t == [Digit(hour / 10), Digit(hour % 10), ':', Digit(minutes / 10), Digit(minutes % 10)];
  }

  /** The `i`-th option: the hour advances every two options, the minutes alternate 0 and 30. */
  function Slot(i: nat): string {
    TimeLabel(9 + i / 2, 30 * (i % 2))
  }

  /** The minutes of option `i` are `"00"` or `"30"`. */
  lemma SlotMinuteDigits(i: nat)
    requires i < 26
    ensures |Slot(i)| == 5
    ensures Slot(i)[3..] == "00" || Slot(i)[3..] == "30"
  {
    var h, m := 9 + i / 2, 30 * (i % 2);
    assert h < 100;
    TwoDigits(m);
    TwoDigits(h);
    if m == 0 {
      assert PadStart(DecimalString(m), 2, '0') == "00";
    } else {
      assert m == 30;
      assert PadStart(DecimalString(m), 2, '0') == "30";
    }
    assert Slot(i)[3..] == PadStart(DecimalString(m), 2, '0');
  }

  /** Option `i` is the time 09:00 plus `30 * i` minutes. */
  lemma SlotMinutes(i: nat)
    requires i < 26
    ensures IsClock(Slot(i))
    ensures MinutesOf(Slot(i)) == 9 * 60 + 30 * i
  {
    var h, m := 9 + i / 2, 30 * (i % 2);
    assert m < 100 && h < 100;
    TimeLabelRoundTrip(h, m);
    assert i == 2 * (i / 2) + i % 2;
  }

  /** The first option is 09:00 and the last is 21:30. */
  lemma FirstAndLastSlots()
    ensures Slot(0) == "09:00" && Slot(25) == "21:30"
  {
    TwoDigits(9);
    TwoDigits(0);
    TwoDigits(21);
    TwoDigits(30);
  }

  /** What the 26 options are, given that each is its slot. */
  lemma AllSlots(options: seq<string>)
    requires |options| == 26
    requires forall i :: 0 <= i < |options| ==> options[i] == Slot(i)
    ensures options[0] == "09:00" && options[25] == "21:30"
    ensures forall i :: 0 <= i < |options| ==> IsClock(options[i]) && (options[i][3..] == "00" || options[i][3..] == "30")
    ensures forall i :: 0 <= i < |options| ==> |options[i]| == 5 && MinutesOf(options[i]) == 9 * 60 + 30 * i
  {
    forall i | 0 <= i < |options|
      ensures IsClock(options[i]) && (options[i][3..] == "00" || options[i][3..] == "30")
      ensures MinutesOf(options[i]) == 9 * 60 + 30 * i
    {
      SlotMinutes(i);
      SlotMinuteDigits(i);
    }
    FirstAndLastSlots();
  }

  /** `generateTimeOptions()`, its time strings only. */
  method GenerateTimeOptions() returns (options: seq<string>)
    ensures |options| == 26
    ensures forall i :: 0 <= i < |options| ==> options[i] == Slot(i)
    ensures options[0] == "09:00" && options[25] == "21:30"
    ensures forall i :: 0 <= i < |options| ==> IsClock(options[i]) && (options[i][3..] == "00" || options[i][3..] == "30")
    ensures forall i :: 0 <= i < |options| ==> |options[i]| == 5 && MinutesOf(options[i]) == 9 * 60 + 30 * i
  {
    options := [];
    var hour := 9;
    while hour <= 21
      invariant 9 <= hour <= 22
      invariant |options| == 2 * (hour - 9)
      invariant forall i :: 0 <= i < |options| ==> options[i] == Slot(i)
    {
      var minutes := 0;
      while minutes < 60
        invariant minutes == 0 || minutes == 30 || minutes == 60
        invariant |options| == 2 * (hour - 9) + minutes / 30
        invariant forall i :: 0 <= i < |options| ==> options[i] == Slot(i)
      {
        var time := PadStart(DecimalString(hour), 2, '0') + ":" + PadStart(DecimalString(minutes), 2, '0');
        assert 9 + |options| / 2 == hour && 30 * (|options| % 2) == minutes;
        assert time == TimeLabel(hour, minutes);
        options := options + [time];
        minutes := minutes + 30;
      }
      hour := hour + 1;
    }
    AllSlots(options);
  }
}
