/**
 Rendering of an elapsed time, in the unit-suffixed grammar of Go's
 time.Duration.String restricted to whole seconds: "0s", "45s", "1m0s",
 "1h0m5s", with a leading '-' for a negative interval. ReadDuration is an
 independent reader of that grammar, and the two form a round trip.
 */
module Durations {
  import opened Decimal
  import opened Results

  /** One number-and-unit token, such as "12m". */
  function Token(n: nat, unit: char): (s: string) {
    NatToString(n) + [unit]
  }

  /**
   Magnitude in seconds, positive: seconds always, then minutes and hours only
   while the quotient left after dividing by 60 is non-zero.
   */
  function Units(u: nat): (s: string)
    requires u > 0
  {
    var minutes := u / 60;
    var hours := minutes / 60;
    if minutes == 0 then Token(u % 60, 's')
    else if hours == 0 then Token(minutes % 60, 'm') + Token(u % 60, 's')
    else Token(hours, 'h') + (Token(minutes % 60, 'm') + Token(u % 60, 's'))
  }

  /** The duration string for a signed number of seconds. */
  function FormatDuration(seconds: int): (s: string)
    ensures |s| >= 2 && s[|s| - 1] == 's'
    ensures s[0] == '-' <==> seconds < 0
  {
    if seconds == 0 then "0s"
    else if seconds < 0 then "-" + Units(Magnitude(seconds))
    else Units(Magnitude(seconds))
  }

  /** The absolute value of an interval. */
  function Magnitude(seconds: int): (u: nat)
    ensures u == seconds || u == -seconds
  {
    if seconds < 0 then -seconds else seconds
  }

  function UnitSeconds(c: char): (n: nat) {
    match c
    case 'h' => 3600
    case 'm' => 60
    case 's' => 1
    case _ => 0
  }

  predicate IsUnit(c: char) {
    c == 'h' || c == 'm' || c == 's'
  }

  /** Sum of a sequence of number-and-unit tokens such as "1h2m3s"; None on anything else. */
  function ReadUnits(s: string): (r: Option<nat>)
    decreases |s|
  {
    if s == [] then Some(0)
    else
      var k := DigitRun(s);
      if k == 0 || k == |s| || !IsUnit(s[k]) then None
      else match ReadUnits(s[k + 1..])
        case None => None
        case Some(rest) => Some(DecimalValue(s[..k]) * UnitSeconds(s[k]) + rest)
  }

  /** Reads a duration string back into signed seconds. */
  function ReadDuration(s: string): (r: Option<int>)
  {
    if s == [] || s == "-" then None
    else if s[0] == '-' then
      match ReadUnits(s[1..])
      case None => None
      case Some(u) => Some(-(u as int))
    else
      match ReadUnits(s) 
      case None => None
      case Some(u) => Some(u)
  }

  lemma ReadToken(n: nat, u: char, rest: string, r: nat, total: nat)
    requires IsUnit(u) && ReadUnits(rest) == Some(r)
    requires total == n * UnitSeconds(u) + r
    ensures ReadUnits(Token(n, u) + rest) == Some(total)
  {
    var ds := NatToString(n);
    var s := Token(n, u) + rest;
    assert s == ds + ([u] + rest);
    DigitRunOfDelimited(ds, [u] + rest);
    var k := DigitRun(s);
    assert k == |ds| && s[k] == u;
    assert s[..k] == ds;
    assert s[k + 1..] == rest;
    NatToStringValue(n);
    assert DecimalValue(s[..k]) == n;
  }

  lemma ReadSecondsToken(sec: nat)
    ensures ReadUnits(Token(sec, 's')) == Some(sec)
  {
    assert ReadUnits([]) == Some(0);
    ReadToken(sec, 's', [], 0, sec);
    assert Token(sec, 's') + [] == Token(sec, 's');
  }

  lemma ReadMinutesTokens(min: nat, sec: nat)
    ensures ReadUnits(Token(min, 'm') + Token(sec, 's')) == Some(min * 60 + sec)
  {
    ReadSecondsToken(sec);
    ReadToken(min, 'm', Token(sec, 's'), sec, min * 60 + sec);
  }

  lemma ReadHoursTokens(hour: nat, min: nat, sec: nat)
    ensures ReadUnits(Token(hour, 'h') + (Token(min, 'm') + Token(sec, 's')))
      == Some(hour * 3600 + min * 60 + sec)
  {
    ReadMinutesTokens(min, sec);
    ReadToken(hour, 'h', Token(min, 'm') + Token(sec, 's'), min * 60 + sec, hour * 3600 + min * 60 + sec);
  }

  lemma ReadUnitsOfUnits(u: nat)
    requires u > 0
    ensures ReadUnits(Units(u)) == Some(u)
  {
    var minutes := u / 60;
    var hours := minutes / 60;
    if minutes == 0 {
      ReadSecondsToken(u % 60);
    } else if hours == 0 {
      ReadMinutesTokens(minutes % 60, u % 60);
    } else {
      ReadHoursTokens(hours, minutes % 60, u % 60);
      assert minutes == hours * 60 + minutes % 60;
    }
  }

  lemma ReadZero()
    ensures ReadDuration(FormatDuration(0)) == Some(0)
  {
    ReadSecondsToken(0);
    assert Token(0, 's') == "0s";
  }

  /** A '-' followed by a non-empty run of tokens reads as their negated sum. */
  lemma ReadSigned(body: string, u: nat)
    requires body != [] && ReadUnits(body) == Some(u)
    ensures ReadDuration("-" + body) == Some(-(u as int))
  {
    var s := "-" + body;
    assert s[1..] == body;
  }

  lemma ReadNegative(seconds: int)
    requires seconds < 0
    ensures ReadDuration(FormatDuration(seconds)) == Some(seconds)
  {
    var u := Magnitude(seconds);
    ReadUnitsOfUnits(u);
    ReadSigned(Units(u), u);
  }

  lemma ReadPositive(seconds: int)
    requires seconds > 0
    ensures ReadDuration(FormatDuration(seconds)) == Some(seconds)
  {
    var u := Magnitude(seconds);
    ReadUnitsOfUnits(u);
    assert Units(u)[0] != '-';
  }

  lemma ReadFormatDuration(seconds: int)
    ensures ReadDuration(FormatDuration(seconds)) == Some(seconds)
  {
    if seconds == 0 {
      ReadZero();
    } else if seconds < 0 {
      ReadNegative(seconds);
    } else {
      ReadPositive(seconds);
    }
  }

  /** Distinct intervals never share a rendering. */
  lemma FormatDurationInjective(a: int, b: int)
    requires FormatDuration(a) == FormatDuration(b)
    ensures a == b
  {
    ReadFormatDuration(a);
    ReadFormatDuration(b);
  }
}
