/** The compact age string of `delta_to_str` (main.py:54-65): an elapsed
    time, in seconds, rendered as `{days}d{hours}h{mins}m` with the days and
    hours segments left out when they are zero. */
module AgeFormat {
  import opened Decimal


  datatype Split = Split(days: int, hours: nat, mins: nat)

  /** Whole minutes elapsed: the floor of seconds / 60 (Dafny's `/` with a
      positive divisor is the floor, as Python's `math.floor` and `//` are). */
  function TotalMinutes(seconds: int): (m: int)
    ensures m * 60 <= seconds < m * 60 + 60
  {
    seconds / 60
  }

  /** Days, hours (0-23) and minutes (0-59) of a minute count, as Python's
      floor `//` and `%` compute them; negative counts give negative days. */
  function SplitMinutes(total: int): (s: Split)
    ensures s.mins < 60 && s.hours < 24
    ensures s.days * 1440 + s.hours * 60 + s.mins == total
  {
    Split(total / 1440, (total / 60) % 24, total % 60)
  }

  /** The rendering of the three parts: minutes always, hours only when
      positive, days only when positive. */
  function Render(s: Split): string {
    var withHours := HoursAndMinutes(s.hours, s.mins);
    if s.days > 0 then NatToString(s.days) + "d" + withHours else withHours
  }

  /** delta_to_str on an elapsed time given in whole seconds. */
  function DeltaToStr(seconds: int): (r: string)
    ensures |r| >= 2 && r[|r| - 1] == 'm'
    ensures forall i | 0 <= i < |r| :: IsAgeChar(r[i])
  {
    Render(SplitMinutes(TotalMinutes(seconds)))
  }

  predicate IsAgeChar(c: char) {
    IsDigit(c) || c == 'd' || c == 'h' || c == 'm'
  }

  // ---------------------------------------------------------------------
  // The age string determines the split it was rendered from.

  /** x's digits followed by a marker never match a longer digit run. */
  lemma ShorterNumberDiffers(x: nat, c: char, r: string, y: nat, c': char, r': string)
    requires !IsDigit(c)
    requires |NatToString(x)| < |NatToString(y)|
    ensures NatToString(x) + [c] + r != NatToString(y) + [c'] + r'
  {
    var dx, dy := NatToString(x), NatToString(y);
    assert (dx + [c] + r)[|dx|] == c;
    assert (dy + [c'] + r')[|dx|] == dy[|dx|];
  }

  /** A number followed by a non-digit marker is read unambiguously. */
  lemma NumberThenMarker(x: nat, c: char, r: string, y: nat, c': char, r': string)
    requires !IsDigit(c) && !IsDigit(c')
    requires NatToString(x) + [c] + r == NatToString(y) + [c'] + r'
    ensures x == y && c == c' && r == r'
  {
    var dx, dy := NatToString(x), NatToString(y);
    var s := dx + [c] + r;
    if |dx| < |dy| {
      ShorterNumberDiffers(x, c, r, y, c', r');
      assert false;
    } else if |dy| < |dx| {
      ShorterNumberDiffers(y, c', r', x, c, r);
      assert false;
    } else {
      assert dx == s[..|dx|] == dy;
      assert c == s[|dx|] == c';
      NatToStringInjective(x, y);
      assert r == s[|dx| + 1..] == r';
    }
  }

  lemma MinutesSegmentInjective(a: nat, b: nat)
    requires NatToString(a) + "m" == NatToString(b) + "m"
    ensures a == b
  {
    NumberThenMarker(a, 'm', "", b, 'm', "");
  }

  /** The hours-and-minutes tail of an age string. */
  function HoursAndMinutes(hours: nat, mins: nat): string {
    var withMins := NatToString(mins) + "m";
    if hours > 0 then NatToString(hours) + "h" + withMins else withMins
  }

  lemma HoursAndMinutesInjective(h: nat, m: nat, h': nat, m': nat)
    requires HoursAndMinutes(h, m) == HoursAndMinutes(h', m')
    ensures h == h' && m == m'
  {
    var ms, ms' := NatToString(m) + "m", NatToString(m') + "m";
    if h > 0 && h' > 0 {
      NumberThenMarker(h, 'h', ms, h', 'h', ms');
      MinutesSegmentInjective(m, m');
    } else if h > 0 {
      NumberThenMarker(h, 'h', ms, m', 'm', "");
    } else if h' > 0 {
      NumberThenMarker(m, 'm', "", h', 'h', ms');
    } else {
      MinutesSegmentInjective(m, m');
    }
  }

  /** Different splits with non-negative days render differently. */
  lemma RenderInjective(a: Split, b: Split)
    requires a.days >= 0 && b.days >= 0
    requires Render(a) == Render(b)
    ensures a == b
  {
    var ha, hb := HoursAndMinutes(a.hours, a.mins), HoursAndMinutes(b.hours, b.mins);
    if a.days > 0 && b.days > 0 {
      NumberThenMarker(a.days, 'd', ha, b.days, 'd', hb);
      HoursAndMinutesInjective(a.hours, a.mins, b.hours, b.mins);
    } else if a.days > 0 {
      if b.hours > 0 {
        NumberThenMarker(a.days, 'd', ha, b.hours, 'h', NatToString(b.mins) + "m");
      } else {
        NumberThenMarker(a.days, 'd', ha, b.mins, 'm', "");
      }
    } else if b.days > 0 {
      if a.hours > 0 {
        NumberThenMarker(a.hours, 'h', NatToString(a.mins) + "m", b.days, 'd', hb);
      } else {
        NumberThenMarker(a.mins, 'm', "", b.days, 'd', hb);
      }
    } else {
      HoursAndMinutesInjective(a.hours, a.mins, b.hours, b.mins);
    }
  }

  /** On non-negative elapsed times two age strings are equal exactly when
      the two times fall in the same whole minute. */
  lemma DeltaToStrEqualIff(a: int, b: int)
    requires a >= 0 && b >= 0
    ensures DeltaToStr(a) == DeltaToStr(b) <==> a / 60 == b / 60
  {
    var sa, sb := SplitMinutes(TotalMinutes(a)), SplitMinutes(TotalMinutes(b));
    assert sa.days >= 0 && sb.days >= 0;
    if DeltaToStr(a) == DeltaToStr(b) {
      RenderInjective(sa, sb);
    }
  }

  /** Which segments appear: minutes always, hours exactly when the hour part
      is positive (also when days are shown), days exactly when positive. */
  lemma DeltaToStrSegments(seconds: int)
    ensures var sp := SplitMinutes(seconds / 60);
            var r := DeltaToStr(seconds);
            var m := NatToString(sp.mins) + "m";
            && |m| <= |r| && r[|r| - |m|..] == m
            && ('h' in r <==> sp.hours > 0)
            && ('d' in r <==> sp.days > 0)
  {
    var sp := SplitMinutes(seconds / 60);
    var m := NatToString(sp.mins) + "m";
    assert 'h' !in NatToString(sp.mins) && 'd' !in NatToString(sp.mins);
    assert 'h' !in NatToString(sp.hours) && 'd' !in NatToString(sp.hours);
    assert 'h' !in NatToString(if sp.days > 0 then sp.days else 0);
  }

  /** Two splits of minute counts a day apart, the earlier one negative,
      differ only in the days. */
  lemma SplitADayApart(t: int)
    requires -1440 <= t < 0
    ensures var a, b := SplitMinutes(t), SplitMinutes(t + 1440);
            a.days == -1 && b.days == 0 && a.hours == b.hours && a.mins == b.mins
  {
    var a, b := SplitMinutes(t), SplitMinutes(t + 1440);
    assert a.days == -1;
    assert b.days == 0;
    assert a.hours * 60 + a.mins == b.hours * 60 + b.mins;
  }

  /** Elapsed times just below zero read like the same time one day later:
      the days segment is negative and therefore dropped. */
  lemma NegativeDeltaLooksADayOlder(seconds: int)
    requires -24 * 60 * 60 <= seconds < 0
    ensures DeltaToStr(seconds) == DeltaToStr(seconds + 24 * 60 * 60)
  {
    var t := TotalMinutes(seconds);
    assert TotalMinutes(seconds + 24 * 60 * 60) == t + 1440;
    SplitADayApart(t);
  }

  lemma ZeroIsZeroMinutes()
    ensures DeltaToStr(0) == "0m"
  {
  }

  lemma SixtyFiveMinutes()
    ensures DeltaToStr(65 * 60) == "1h5m"
  {
  }

  lemma OneDayDropsHours()
    ensures DeltaToStr(24 * 60 * 60) == "1d0m"
  {
  }
}
