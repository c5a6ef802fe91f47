/** The clock panel: `m:ss` rendering of a side's remaining seconds, the
    low-time warning and the active-side highlight. */
module TimerView {
  import opened ChessTypes
  import opened Strings

  /** The seconds field: `r` padded on the left with '0' to two digits. */
  function SecondsText(r: nat): (t: string)
    requires r < 60
    ensures |t| == 2 && AllDigits(t) && DigitsValue(t) == r
  {
    var secs := NatToString(r);
    NatToStringRoundTrip(r);
    if r < 10 then
      assert PadStart(secs, 2, '0') == "0" + secs;
      LeadingZero(secs);
      PadStart(secs, 2, '0')
    else
      assert secs == NatToString(r / 10) + [DigitChar(r % 10)];
      PadStart(secs, 2, '0')
  }

  /** Whole minutes, ':', then the remaining seconds padded to two digits
      with '0'. Remaining times are never negative. */
  function FormatTime(seconds: nat): (s: string)
    ensures |s| >= 4 && s[|s| - 3] == ':'
    ensures s[..|s| - 3] == NatToString(seconds / 60) && AllDigits(s[..|s| - 3])
    ensures s[|s| - 2..] == SecondsText(seconds % 60) && AllDigits(s[|s| - 2..])
  {
    var a := NatToString(seconds / 60);
    var t := SecondsText(seconds % 60);
    ClockFields(a, t);
    a + ":" + t
  }

  /** The fields of `a:t` for a two-character `t`. */
  lemma ClockFields(a: string, t: string)
    requires |t| == 2
    ensures var s := a + ":" + t;
      |s| == |a| + 3 && s[|s| - 3] == ':' && s[..|s| - 3] == a && s[|s| - 2..] == t
  {
    var s := a + ":" + t;
    assert s[..|s| - 3] == a;
    assert s[|s| - 2..] == t;
  }

  /** Reads `m:ss` back into seconds; None for any other text. */
  function ParseTime(s: string): Option<int>
  {
    if |s| >= 4 && s[|s| - 3] == ':' && AllDigits(s[..|s| - 3]) && AllDigits(s[|s| - 2..]) then
      Some(DigitsValue(s[..|s| - 3]) * 60 + DigitsValue(s[|s| - 2..]))
    else None
  }

  /** A leading zero does not change a digit string's value. */
  lemma {:induction false} LeadingZero(s: string)
    requires AllDigits(s)
    ensures AllDigits("0" + s) && DigitsValue("0" + s) == DigitsValue(s)
    decreases |s|
  {
    if |s| > 0 {
      LeadingZero(s[..|s| - 1]);
      assert ("0" + s)[..|s|] == "0" + s[..|s| - 1];
    }
  }

  lemma MinutesAndSeconds(n: nat)
    ensures (n / 60) * 60 + n % 60 == n
  {
  }

  /** Minutes digits, ':', and a two-digit field read back as their values. */
  lemma {:induction false} ParseTimeFields(a: string, t: string, m: nat, r: nat)
    requires |a| >= 1 && AllDigits(a) && |t| == 2 && AllDigits(t)
    requires DigitsValue(a) == m && DigitsValue(t) == r
    ensures ParseTime(a + ":" + t) == Some(m * 60 + r)
  {
    ClockFields(a, t);
  }

  /** The text for m minutes and r < 60 seconds. */
  lemma {:induction false} FormatTimeOf(seconds: nat, m: nat, r: nat)
    requires seconds == m * 60 + r && r < 60
    ensures FormatTime(seconds) == NatToString(m) + ":" + SecondsText(r)
  {
    assert seconds / 60 == m && seconds % 60 == r;
  }

  /** The clock text determines the time. */
  lemma {:induction false} FormatTimeRoundTrip(seconds: nat)
    ensures ParseTime(FormatTime(seconds)) == Some(seconds)
  {
    var m, r := seconds / 60, seconds % 60;
    var a, t := NatToString(m), SecondsText(r);
    MinutesAndSeconds(seconds);
    FormatTimeOf(seconds, m, r);
    NatToStringRoundTrip(m);
    ParseTimeFields(a, t, m, r);
  }

  /** The starting ten minutes show as "10:00". */
  lemma InitialTimeText()
    ensures FormatTime(600) == "10:00"
  {
    assert NatToString(10) == NatToString(1) + [DigitChar(0)];
  }

  /** The low-time warning: a minute or less left. */
  predicate IsLowTime(seconds: int)
  {
    seconds <= 60
  }

  /** The warning is on exactly when the clock shows "1:00" or a time
      under a minute ("0:ss"). */
  lemma LowTimeShows(seconds: nat)
    ensures IsLowTime(seconds) <==> FormatTime(seconds) == "1:00" || FormatTime(seconds)[..2] == "0:"
  {
    if seconds == 60 {
      OneMinuteText();
    } else if seconds < 60 {
      UnderMinuteText(seconds);
    } else {
      OverMinuteText(seconds);
    }
  }

  lemma OneMinuteText()
    ensures FormatTime(60) == "1:00"
  {
    assert SecondsText(0) == "00";
    FormatTimeOf(60, 1, 0);
  }

  lemma UnderMinuteText(seconds: nat)
    requires seconds < 60
    ensures FormatTime(seconds)[..2] == "0:"
  {
    var s := FormatTime(seconds);
    assert s[..|s| - 3] == "0";
  }

  lemma OverMinuteText(seconds: nat)
    requires seconds > 60
    ensures FormatTime(seconds) != "1:00" && FormatTime(seconds)[..2] != "0:"
  {
    OverMinuteNotOne(seconds);
    OverMinuteNoZero(seconds);
  }

  lemma OverMinuteNotOne(seconds: nat)
    requires seconds > 60
    ensures FormatTime(seconds) != "1:00"
  {
    OneMinuteText();
    FormatTimeRoundTrip(60);
    FormatTimeRoundTrip(seconds);
  }

  /** Past a minute the minutes field is a number of at least one, so the
      text starts with a nonzero digit followed by a digit or ':'. */
  lemma OverMinuteNoZero(seconds: nat)
    requires seconds > 60
    ensures FormatTime(seconds)[..2] != "0:"
  {
    var s := FormatTime(seconds);
    var a := NatToString(seconds / 60);
    assert s[..|s| - 3] == a;
    if |a| > 1 {
      assert s[1] == a[1] && IsDigit(a[1]);
    } else {
      assert s[0] == a[0] == DigitChar(seconds / 60);
    }
  }

  /** A side is highlighted when it is to move and the clock runs. */
  predicate IsActive(side: Color, currentPlayer: Color, isRunning: bool)
  {
    currentPlayer == side && isRunning
  }

  /** At most one side is highlighted; none while the clock is paused, and
      the side to move while it runs. */
  lemma ActiveSides(currentPlayer: Color, isRunning: bool)
    ensures !(IsActive(White, currentPlayer, isRunning) && IsActive(Black, currentPlayer, isRunning))
    ensures !isRunning ==> !IsActive(White, currentPlayer, isRunning) && !IsActive(Black, currentPlayer, isRunning)
    ensures isRunning ==> IsActive(currentPlayer, currentPlayer, isRunning)
  {
  }
}
