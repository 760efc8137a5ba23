/**
 * The human-readable ban window written to the log when AniDB has banned the
 * client recently: the configured number of seconds in the largest whole unit.
 */
module BanWindow {
  import opened Wrappers

  const SecondsPerDay: nat := 86400
  const SecondsPerHour: nat := 3600
  const SecondsPerMinute: nat := 60

  predicate IsDigit(c: char) {
    '0' <= c <= '9'
  }

  predicate AllDigits(s: string) {
    forall i :: 0 <= i < |s| ==> IsDigit(s[i])
  }

  /** The decimal form of a count, as string interpolation writes a non-negative `int`. */
  function NatToString(n: nat): (r: string)
    ensures |r| >= 1 && AllDigits(r)
  {
    var d := [(48 + n % 10) as char];
    if n < 10 then d else NatToString(n / 10) + d
  }

  /** The value of a string of decimal digits. */
  function ParseNat(s: string): nat
    requires AllDigits(s)
  {
    if s == [] then 0 else 10 * ParseNat(s[..|s| - 1]) + (s[|s| - 1] as int - 48)
  }

  lemma {:induction false} NatToStringRoundTrip(n: nat)
    ensures ParseNat(NatToString(n)) == n
    decreases n
  {
    var s := NatToString(n);
    if n >= 10 {
      NatToStringRoundTrip(n / 10);
      assert s[..|s| - 1] == NatToString(n / 10);
    }
  }

  /** "1 day", "2 days": the count and the unit, plural unless the count is one. */
  function Quantity(count: nat, unit: string): string {
    if count == 1 then "1 " + unit else NatToString(count) + " " + unit + "s"
  }

  /** `FormatBanWindow`. */
  function FormatBanWindow(seconds: int): string {
    if seconds <= 0 then "0 seconds"
    else if seconds % SecondsPerDay == 0 then Quantity(seconds / SecondsPerDay, "day")
    else if seconds % SecondsPerHour == 0 then Quantity(seconds / SecondsPerHour, "hour")
    else if seconds % SecondsPerMinute == 0 then Quantity(seconds / SecondsPerMinute, "minute")
    else Quantity(seconds, "second")
  }

  /** The position of the first space, or the length when there is none. */
  function FirstSpace(t: string): (r: nat)
    ensures r <= |t|
    ensures r < |t| ==> t[r] == ' '
    ensures forall i :: 0 <= i < r ==> t[i] != ' '
  {
    if t == [] || t[0] == ' ' then 0 else 1 + FirstSpace(t[1..])
  }

  lemma {:induction false} FirstSpaceAt(t: string, k: nat)
    requires k < |t| && t[k] == ' '
    requires forall i :: 0 <= i < k ==> t[i] != ' '
    ensures FirstSpace(t) == k
    decreases k
  {
    if k > 0 {
      FirstSpaceAt(t[1..], k - 1);
    }
  }

  /** The seconds one unit word stands for, singular or plural. */
  function UnitSeconds(w: string): Option<nat> {
    if w == "day" || w == "days" then Some(SecondsPerDay)
    else if w == "hour" || w == "hours" then Some(SecondsPerHour)
    else if w == "minute" || w == "minutes" then Some(SecondsPerMinute)
    else if w == "second" || w == "seconds" then Some(1)
    else None
  }

  /** Reads a ban window back: a decimal count, one space, a unit word. */
  function ParseBanWindow(t: string): Option<int> {
    var k := FirstSpace(t);
    if k == 0 || k == |t| || !AllDigits(t[..k]) then None
    else
      var u := UnitSeconds(t[k + 1..]);
      if u.None? then None else Some(ParseNat(t[..k]) * u.value)
  }

  /** A quantity splits at its only space into its count and its unit word. */
  lemma QuantityParts(count: nat, unit: string)
    requires count >= 1
    ensures var t := Quantity(count, unit);
            var k := FirstSpace(t);
            0 < k < |t| && AllDigits(t[..k]) && ParseNat(t[..k]) == count
            && t[k + 1..] == (if count == 1 then unit else unit + "s")
  {
    var t := Quantity(count, unit);
    var digits := if count == 1 then "1" else NatToString(count);
    var w := if count == 1 then unit else unit + "s";
    assert t == digits + " " + w;
    assert t[..|digits|] == digits;
    assert forall i :: 0 <= i < |digits| ==> t[i] != ' ' by {
      forall i | 0 <= i < |digits| ensures t[i] != ' ' {
        assert t[i] == digits[i] && IsDigit(digits[i]);
      }
    }
    FirstSpaceAt(t, |digits|);
    assert t[|digits| + 1..] == w;
    NatToStringRoundTrip(count);
  }

  /** One of the four units. */
  predicate IsUnit(u: nat) {
    u == SecondsPerDay || u == SecondsPerHour || u == SecondsPerMinute || u == 1
  }

  /** The largest unit that divides a positive window. */
  function LargestUnit(seconds: int): (u: nat)
    requires seconds > 0
    ensures IsUnit(u) && seconds % u == 0
    ensures forall v: nat :: IsUnit(v) && v > u ==> seconds % v != 0
  {
    if seconds % SecondsPerDay == 0 then SecondsPerDay
    else if seconds % SecondsPerHour == 0 then SecondsPerHour
    else if seconds % SecondsPerMinute == 0 then SecondsPerMinute
    else 1
  }

  /** The unit word of the text, not its plural. */
  function UnitName(u: nat): string {
    if u == SecondsPerDay then "day" else if u == SecondsPerHour then "hour"
    else if u == SecondsPerMinute then "minute" else "second"
  }

  /** A positive window is written as a whole count of the largest unit dividing it. */
  lemma BanWindowLargestUnit(seconds: int)
    requires seconds > 0
    ensures FormatBanWindow(seconds) == Quantity(seconds / LargestUnit(seconds), UnitName(LargestUnit(seconds)))
  {
    if seconds % SecondsPerDay == 0 {
      assert LargestUnit(seconds) == SecondsPerDay;
    } else if seconds % SecondsPerHour == 0 {
      assert LargestUnit(seconds) == SecondsPerHour;
    } else if seconds % SecondsPerMinute == 0 {
      assert LargestUnit(seconds) == SecondsPerMinute;
    } else {
      assert LargestUnit(seconds) == 1;
    }
  }

  /** Each unit word, singular or plural, reads back as its unit. */
  lemma UnitSecondsOfName(u: nat, plural: bool)
    requires IsUnit(u)
    ensures UnitSeconds(if plural then UnitName(u) + "s" else UnitName(u)) == Some(u)
  {
    var w := if plural then UnitName(u) + "s" else UnitName(u);
    if u == SecondsPerDay {
      assert w == "day" || w == "days";
    } else if u == SecondsPerHour {
      assert w == "hour" || w == "hours";
      assert w[0] == 'h' && |w| >= 4;
      assert w != "day" && w != "days";
    } else if u == SecondsPerMinute {
      assert w == "minute" || w == "minutes";
      assert |w| >= 6;
    } else {
      assert w == "second" || w == "seconds";
      assert w[0] == 's' && |w| >= 6;
      assert w != "minute" && w != "minutes";
    }
  }

  /** Reading back a positive window gives the configured seconds. */
  lemma BanWindowRoundTrip(seconds: int)
    requires seconds > 0
    ensures ParseBanWindow(FormatBanWindow(seconds)) == Some(seconds)
  {
    var u := LargestUnit(seconds);
    var count: nat := seconds / u;
    var t := FormatBanWindow(seconds);
    BanWindowLargestUnit(seconds);
    QuantityParts(count, UnitName(u));
    UnitSecondsOfName(u, count != 1);
    assert count * u == seconds;
  }

  /** A window that is not positive is written, and read back, as zero seconds. */
  lemma BanWindowNotPositive(seconds: int)
    requires seconds <= 0
    ensures FormatBanWindow(seconds) == "0 seconds"
    ensures ParseBanWindow(FormatBanWindow(seconds)) == Some(0)
  {
    var t := FormatBanWindow(seconds);
    FirstSpaceAt(t, 1);
    assert t[..1] == "0";
    assert AllDigits(t[..1]) && ParseNat(t[..1]) == 0 by {
      assert t[..1][..0] == [];
    }
    assert t[2..] == "seconds";
    assert UnitSeconds(t[2..]) == Some(1);
  }

  /** The default window of two hours reads "2 hours". */
  lemma BanWindowTwoHours()
    ensures FormatBanWindow(2 * 60 * 60) == "2 hours"
  {
    assert NatToString(2) == "2";
  }

  /** A day reads "1 day". */
  lemma BanWindowOneDay()
    ensures FormatBanWindow(86400) == "1 day"
  {
    assert NatToString(1) == "1";
  }

  /** Ninety seconds stay in seconds. */
  lemma BanWindowNinetySeconds()
    ensures FormatBanWindow(90) == "90 seconds"
  {
    assert NatToString(90) == NatToString(9) + "0";
  }
}
