/**
 The timestamp interval engine: both end points are parsed under the fixed
 layout and the result is the signed number of seconds from the first to
 the second, negative when the pair is reversed.
 */
module Intervals {
  import opened Results
  import Timestamp

  /** Which end point failed to parse under the layout. */
  datatype ParseError = FromNotTimestamp(from: string) | ToNotTimestamp(to: string)

  function ComputeInterval(from: string, to: string): (r: Result<int, ParseError>)
    ensures r.Success? <==> Timestamp.Parse(from).Some? && Timestamp.Parse(to).Some?
    ensures r.Failure? && r.error.FromNotTimestamp? ==> Timestamp.Parse(from).None?
    ensures r.Failure? && r.error.ToNotTimestamp? ==> Timestamp.Parse(to).None?
  {
    match (Timestamp.Parse(from), Timestamp.Parse(to))
    case (None, _) => Failure(FromNotTimestamp(from))
    case (_, None) => Failure(ToNotTimestamp(to))
    case (Some(a), Some(b)) => Success(Timestamp.Seconds(b) - Timestamp.Seconds(a))
  }

  /** The interval is positive exactly when the first instant is the earlier one. */
  lemma IntervalSign(from: string, to: string)
    requires ComputeInterval(from, to).Success?
    ensures ComputeInterval(from, to).value > 0
      <==> Timestamp.Before(Timestamp.Parse(from).value, Timestamp.Parse(to).value)
    ensures ComputeInterval(from, to).value == 0 <==> from == to
  {
    var a := Timestamp.Parse(from).value;
    var b := Timestamp.Parse(to).value;
    Timestamp.SecondsOrder(a, b);
    Timestamp.FormatParse(from);
    Timestamp.FormatParse(to);
  }

  /** Swapping the end points negates the interval. */
  lemma IntervalAntisymmetric(from: string, to: string)
    requires ComputeInterval(from, to).Success?
    ensures ComputeInterval(to, from) == Success(-ComputeInterval(from, to).value)
  {
  }

  /** Intervals chain: from a to b then b to c is from a to c. */
  lemma IntervalAdditive(a: string, b: string, c: string)
    requires ComputeInterval(a, b).Success? && ComputeInterval(b, c).Success?
    ensures ComputeInterval(a, c) ==
      Success(ComputeInterval(a, b).value + ComputeInterval(b, c).value)
  {
  }

  /** Between the renderings of a date-time and of the second after it, the interval is one second. */
  lemma NextSecondInterval(t: Timestamp.DateTime)
    requires Timestamp.Valid(t) && Timestamp.Valid(Timestamp.Tick(t))
    ensures ComputeInterval(Timestamp.Format(t), Timestamp.Format(Timestamp.Tick(t))) == Success(1)
  {
    Timestamp.ParseFormat(t);
    Timestamp.ParseFormat(Timestamp.Tick(t));
    Timestamp.TickSeconds(t);
  }
}
