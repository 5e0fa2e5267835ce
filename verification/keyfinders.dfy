/**
 The key finder: which two members of an object hold the interval's end
 points, and under which member the interval is written back.
 */
module KeyFinders {
  import opened Results
  import opened Values

  const DefaultFromKey: string := "created_at"
  const DefaultToKey: string := "updated_at"
  const ResultKey: string := "duration"

  datatype KeyFinder = KeyFinder(fromKey: string, toKey: string, resultKey: string)

  /** The two timestamp strings found in one object node. */
  datatype Pair = Pair(from: string, to: string)

  /** An empty key name selects the default; the result key is always `duration`. */
  function NewKeyFinder(from: string, to: string): (kf: KeyFinder)
    ensures kf.fromKey != "" && kf.toKey != "" && kf.resultKey == ResultKey
    ensures from != "" ==> kf.fromKey == from
    ensures to != "" ==> kf.toKey == to
    ensures from == "" ==> kf.fromKey == DefaultFromKey
    ensures to == "" ==> kf.toKey == DefaultToKey
  {
    KeyFinder(if from == "" then DefaultFromKey else from,
              if to == "" then DefaultToKey else to,
              ResultKey)
  }

  /** The member `key` of an object, when it is present and holds a string. */
  function StringMember(fields: map<string, Value>, key: string): (r: Option<string>)
    ensures r.Some? <==> key in fields && fields[key].Scalar? && fields[key].scalar.Str?
    ensures r.Some? ==> fields[key] == Scalar(Str(r.value))
  {
    if key in fields && fields[key].Scalar? && fields[key].scalar.Str? then
      Some(fields[key].scalar.s)
    else None
  }

  /**
   The matching pair of an object node: both configured members present and
   both string scalars. A missing member or a non-string value is the
   ordinary "no match here" outcome, not an error.
   */
  function FindPair(kf: KeyFinder, fields: map<string, Value>): (r: Option<Pair>)
    ensures r.Some? <==>
      && kf.fromKey in fields && fields[kf.fromKey].Scalar? && fields[kf.fromKey].scalar.Str?
      && kf.toKey in fields && fields[kf.toKey].Scalar? && fields[kf.toKey].scalar.Str?
    ensures r.Some? ==>
      fields[kf.fromKey] == Scalar(Str(r.value.from)) && fields[kf.toKey] == Scalar(Str(r.value.to))
  {
    match (StringMember(fields, kf.fromKey), StringMember(fields, kf.toKey))
    case (Some(from), Some(to)) => Some(Pair(from, to))
    case _ => None
  }

  /** A finder's match depends only on its two configured members. */
  lemma FindPairLocal(kf: KeyFinder, f: map<string, Value>, g: map<string, Value>)
    requires kf.fromKey in f <==> kf.fromKey in g
    requires kf.toKey in f <==> kf.toKey in g
    requires kf.fromKey in f ==> f[kf.fromKey] == g[kf.fromKey]
    requires kf.toKey in f ==> g[kf.toKey] == f[kf.toKey]
    ensures FindPair(kf, f) == FindPair(kf, g)
  {
  }
}
