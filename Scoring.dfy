/** Score arithmetic and the timer display. Time is an integer number of
    milliseconds read from an injected clock; JavaScript divides it by 1000
    as a float, and every quantity below is the floor the game takes of it. */
module Scoring {
  import opened GameConfig
  import opened Decimal

  /** Remaining time bonus: the difficulty's bonus minus one per started ten
      seconds, never below zero. `Math.floor((ms / 1000) / 10)` is `ms / 10000`,
      and Dafny's division by a positive constant floors for negative `ms` too. */
  function MatchTimeBonus(d: Difficulty, elapsedMs: int): (b: int)
    ensures 0 <= b
    ensures elapsedMs >= 0 ==> b <= TimeBonus(d)
    ensures 0 <= elapsedMs < 10000 ==> b == TimeBonus(d)
    ensures elapsedMs >= 10000 * TimeBonus(d) ==> b == 0
    ensures 0 <= elapsedMs ==> b == 0 || (TimeBonus(d) - b) * 10000 <= elapsedMs < (TimeBonus(d) - b + 1) * 10000
    ensures 0 <= elapsedMs < 10000 * TimeBonus(d) ==> 0 < b && (TimeBonus(d) - b) * 10000 <= elapsedMs < (TimeBonus(d) - b + 1) * 10000
  {
    var decay := elapsedMs / 10000;
    if TimeBonus(d) - decay > 0 then TimeBonus(d) - decay else 0
  }

  /** Points for one match: the base plus twice the remaining time bonus. */
  function MatchPoints(d: Difficulty, elapsedMs: int): (p: int)
    ensures PointsPerMatch <= p
    ensures elapsedMs >= 0 ==> p <= PointsPerMatch + TimeBonusMultiplier * TimeBonus(d)
    ensures p % TimeBonusMultiplier == 0
  {
    PointsPerMatch + MatchTimeBonus(d, elapsedMs) * TimeBonusMultiplier
  }

  /** A later match never earns more. */
  lemma MatchPointsDecay(d: Difficulty, early: int, late: int)
    requires early <= late
    ensures MatchPoints(d, late) <= MatchPoints(d, early)
  {
    assert early / 10000 <= late / 10000;
  }

  /** Medium difficulty, five seconds in: 100 + 15 * 2. */
  lemma MatchPointsMediumAtFiveSeconds()
    ensures MatchPoints(Medium, 5000) == 130
  {
  }

  /** `Math.floor(Math.max(0, 300 - ms / 1000) * 5)`: five points for every
      second under five minutes, computed exactly as `(300000 - ms) * 5 / 1000`. */
  function FinalTimeBonus(elapsedMs: int): (b: int)
    ensures 0 <= b
    ensures elapsedMs >= 0 ==> b <= 1500
    ensures elapsedMs >= 300000 ==> b == 0
    ensures elapsedMs < 300000 && elapsedMs % 200 == 0 ==> b * 200 == 300000 - elapsedMs
    ensures elapsedMs < 300000 ==> b * 200 <= 300000 - elapsedMs < (b + 1) * 200
  {
    if elapsedMs < 300000 then (300000 - elapsedMs) * 5 / 1000 else 0
  }

  /** Finishing later never earns a larger completion bonus. */
  lemma FinalTimeBonusDecay(early: int, late: int)
    requires early <= late
    ensures FinalTimeBonus(late) <= FinalTimeBonus(early)
  {
    if late < 300000 {
      assert (300000 - late) * 5 / 1000 <= (300000 - early) * 5 / 1000;
    }
  }

  lemma FinalTimeBonusAtOneMinute()
    ensures FinalTimeBonus(60000) == 1200
  {
  }

  /** `s.padStart(n, c)`. */
  function PadStart(s: string, n: nat, c: char): (r: string)
    ensures |r| == if |s| < n then n else |s|
    ensures r[|r| - |s|..] == s
    ensures forall i :: 0 <= i < |r| - |s| ==> r[i] == c
  {
    if |s| >= n then s else seq(n - |s|, _ => c) + s
  }

  /** The timer's `m:ss` text for an elapsed time: the minutes in decimal, a
      colon, and the seconds as exactly two digits. */
  function TimerText(elapsedMs: nat): (t: string)
    ensures 4 <= |t| && t[|t| - 3] == ':'
    ensures IsDigits(t[..|t| - 3]) && IsDigits(t[|t| - 2..])
  {
    var elapsed := elapsedMs / 1000;
    var minutes := elapsed / 60;
    var seconds := elapsed % 60;
    var m := NatToString(minutes);
    var f := PadStart(NatToString(seconds), 2, '0');
    SecondsDigits(seconds);
    ColonJoin(m, f);
    m + ":" + f
  }

  lemma SecondsDigits(seconds: nat)
    requires seconds < 60
    ensures var f := PadStart(NatToString(seconds), 2, '0');
            |f| == 2 && IsDigits(f)
  {
    SecondsField(seconds);
  }

  lemma ColonJoin(m: string, f: string)
    requires |f| == 2
    ensures var t := m + ":" + f;
            |t| == |m| + 3 && t[|m|] == ':' && t[..|m|] == m && t[|m| + 1..] == f
  {
  }

  lemma SingleDigitField(seconds: nat)
    requires seconds < 10
    ensures PadStart(NatToString(seconds), 2, '0') == "0" + NatToString(seconds)
  {
  }

  lemma TwoDigitField(seconds: nat)
    requires 10 <= seconds < 100
    ensures PadStart(NatToString(seconds), 2, '0') == NatToString(seconds)
    ensures |NatToString(seconds)| == 2
  {
    assert |NatToString(seconds / 10)| == 1;
  }

  /** The seconds field: two digits whose value is the seconds. */
  lemma SecondsField(seconds: nat)
    requires seconds < 60
    ensures var f := PadStart(NatToString(seconds), 2, '0');
            |f| == 2 && IsDigits(f) && ParseNat(f) == seconds
  {
    var digits := NatToString(seconds);
    ParseNatToString(seconds);
    if seconds < 10 {
      SingleDigitField(seconds);
      ParseNatLeadingZero(digits);
    } else {
      TwoDigitField(seconds);
    }
  }

  /** Reading the display back: minutes before the colon, exactly two second
      digits after it, and together they give the whole elapsed seconds. */
  lemma TimerTextRoundTrip(elapsedMs: nat)
    ensures var (m, s) := SplitLast(TimerText(elapsedMs), ':');
            TimerText(elapsedMs) == m + ":" + s && 1 <= |m| && IsDigits(m) && IsDigits(s) &&
            |s| == 2 && ParseNat(s) < 60 && ParseNat(m) * 60 + ParseNat(s) == elapsedMs / 1000
  {
    var elapsed := elapsedMs / 1000;
    var minutes, seconds := elapsed / 60, elapsed % 60;
    var m := NatToString(minutes);
    var f := PadStart(NatToString(seconds), 2, '0');
    SecondsField(seconds);
    assert ':' !in f;
    assert TimerText(elapsedMs) == m + [':'] + f;
    SplitLastJoin(m, ':', f);
    ParseNatToString(minutes);
  }

  lemma TimerTextAtStart()
    ensures TimerText(0) == "0:00"
  {
    calc {
      TimerText(0);
      { assert 0 / 1000 == 0 && 0 / 60 == 0 && 0 % 60 == 0; }
      NatToString(0) + ":" + PadStart(NatToString(0), 2, '0');
      { assert NatToString(0) == "0"; }
      "0" + ":" + PadStart("0", 2, '0');
      { assert PadStart("0", 2, '0') == "00"; }
      "0:00";
    }
  }

  lemma TimerTextAtOneMinuteFive()
    ensures TimerText(65999) == "1:05"
  {
    calc {
      TimerText(65999);
      { assert 65999 / 1000 == 65 && 65 / 60 == 1 && 65 % 60 == 5; }
      NatToString(1) + ":" + PadStart(NatToString(5), 2, '0');
      { assert NatToString(1) == "1" && NatToString(5) == "5"; }
      "1" + ":" + PadStart("5", 2, '0');
      { assert PadStart("5", 2, '0') == "05"; }
      "1:05";
    }
  }
}
