/**
 The tree augmenter: a depth-first walk over the whole document that writes
 the interval under the result key of every object node whose two
 configured members hold parseable timestamps. It never fails: an object
 without a match, or whose timestamps do not fit the layout, keeps exactly
 the members it had, and the walk continues into every child regardless.
 */
module Augmenter {
  import opened Results
  import opened Values
  import opened KeyFinders
  import opened Intervals
  import opened Durations
  import Timestamp
  import Decimal

  /**
   The duration string an object node receives, if any: the finder matches
   and both timestamps parse.
   */
  function Annotation(kf: KeyFinder, fields: map<string, Value>): (r: Option<string>)
    ensures r.Some? <==>
      FindPair(kf, fields).Some?
      && ComputeInterval(FindPair(kf, fields).value.from, FindPair(kf, fields).value.to).Success?
    ensures r.Some? ==>
      ReadDuration(r.value) ==
        Some(ComputeInterval(FindPair(kf, fields).value.from, FindPair(kf, fields).value.to).value)
  {
    match FindPair(kf, fields)
    case None => None
    case Some(pair) =>
      match ComputeInterval(pair.from, pair.to)
      case Failure(_) => None
      case Success(seconds) =>
        ReadFormatDuration(seconds);
        Some(FormatDuration(seconds))
  }

  /**
   Augment every object node of `v`. Each object's members are augmented
   first and the result key is then added or overwritten when the node as
   decoded matches; AnnotateThenDescend shows that annotating a node before
   descending into it gives the same node. The members are mapped here rather
   than through AugmentChildren so that the walk is not mutually recursive, and
   the annotation is read off the members as decoded, where Annotate reads it
   off the members it is given (MatchBeforeOrAfterDescent shows the two agree).
   */
  function Augment(kf: KeyFinder, v: Value): (r: Value)
    ensures r.Object? <==> v.Object?
    ensures r.Array? <==> v.Array?
    ensures v.Scalar? ==> r == v
    ensures v.Array? ==> |r.items| == |v.items|
    ensures v.Array? ==> forall i :: 0 <= i < |v.items| ==> r.items[i] == Augment(kf, v.items[i])
    ensures v.Object? ==>
      r.fields.Keys == v.fields.Keys + (if Annotation(kf, v.fields).Some? then {kf.resultKey} else {})
    ensures v.Object? && Annotation(kf, v.fields).Some? ==>
      r.fields[kf.resultKey] == Scalar(Str(Annotation(kf, v.fields).value))
    ensures v.Object? ==>
      forall k :: k in v.fields && (k != kf.resultKey || Annotation(kf, v.fields).None?) ==>
        r.fields[k] == Augment(kf, v.fields[k])
  {
    match v
    case Scalar(_) => v
    case Array(items) => Array(seq(|items|, i requires 0 <= i < |items| => Augment(kf, items[i])))
    case Object(fields) =>
      var children := map k | k in fields :: Augment(kf, fields[k]);
      match Annotation(kf, fields)
      case None => Object(children)
      case Some(d) => Object(children[kf.resultKey := Scalar(Str(d))])
  }

  /** The members of an object after its children have been augmented. */
  function AugmentChildren(kf: KeyFinder, fields: map<string, Value>): (r: map<string, Value>)
    ensures r.Keys == fields.Keys
  {
    map k | k in fields :: Augment(kf, fields[k])
  }

  /**
   Descending into the children never changes whether a node matches or what
   it receives: the string members the finder reads are left as they are.
   */
  lemma MatchBeforeOrAfterDescent(kf: KeyFinder, fields: map<string, Value>)
    ensures Annotation(kf, AugmentChildren(kf, fields)) == Annotation(kf, fields)
  {
    var children := AugmentChildren(kf, fields);
    assert FindPair(kf, children) == FindPair(kf, fields) by {
      if kf.fromKey in fields {
        assert children[kf.fromKey] == Augment(kf, fields[kf.fromKey]);
      }
      if kf.toKey in fields {
        assert children[kf.toKey] == Augment(kf, fields[kf.toKey]);
      }
    }
  }

  /** The members of an object node once its own annotation, if any, is in place. */
  function Annotate(kf: KeyFinder, fields: map<string, Value>): (r: map<string, Value>) {
    match Annotation(kf, fields)
    case None => fields
    case Some(d) => fields[kf.resultKey := Scalar(Str(d))]
  }

  /**
   The walk in pre-order gives the same node: put the node's own annotation
   in place first, then augment every member, the injected string included.
   */
  lemma AnnotateThenDescend(kf: KeyFinder, fields: map<string, Value>)
    ensures Augment(kf, Object(fields)) == Object(AugmentChildren(kf, Annotate(kf, fields)))
  {
    match Annotation(kf, fields)
    case None =>
    case Some(d) =>
      var node := fields[kf.resultKey := Scalar(Str(d))];
      assert AugmentChildren(kf, node) == AugmentChildren(kf, fields)[kf.resultKey := Scalar(Str(d))] by {
        assert Augment(kf, node[kf.resultKey]) == Scalar(Str(d));
      }
  }

  /** A rendered duration is never itself a timestamp, so it never matches as one. */
  lemma DurationIsNotTimestamp(seconds: int)
    ensures Timestamp.Parse(FormatDuration(seconds)).None?
  {
    var s := FormatDuration(seconds);
    assert !Decimal.IsDigit(s[|s| - 1]);
    Timestamp.NonDigitEndRejected(s);
  }

  /**
   Every object node that matches already carries the interval under the
   result key: the trees that augmentation leaves alone.
   */
  predicate Settled(kf: KeyFinder, v: Value) {
    match v
    case Scalar(_) => true
    case Array(items) => forall i :: 0 <= i < |items| ==> Settled(kf, items[i])
    case Object(fields) =>
      && (Annotation(kf, fields).Some? ==>
            kf.resultKey in fields && fields[kf.resultKey] == Scalar(Str(Annotation(kf, fields).value)))
      && forall k :: k in fields ==> Settled(kf, fields[k])
  }

  /** After augmentation the node's own annotation is in place (or the node no longer matches). */
  lemma AugmentedNodeSettled(kf: KeyFinder, fields: map<string, Value>)
    ensures var g := Augment(kf, Object(fields)).fields;
      Annotation(kf, g).Some? ==>
        kf.resultKey in g && g[kf.resultKey] == Scalar(Str(Annotation(kf, g).value))
  {
    var g := Augment(kf, Object(fields)).fields;
    var children := AugmentChildren(kf, fields);
    MatchBeforeOrAfterDescent(kf, fields);
    match Annotation(kf, fields)
    case None =>
      assert g == children;
    case Some(d) =>
      var pair := FindPair(kf, fields).value;
      var seconds := ComputeInterval(pair.from, pair.to).value;
      assert g == children[kf.resultKey := Scalar(Str(d))];
      InjectedNodeSettled(kf, children, seconds);
  }

  /**
   Writing a node's own duration under the result key leaves it settled: the
   match is unchanged, or gone when the result key is one of the timestamp
   members, since a duration never parses as a timestamp.
   */
  lemma InjectedNodeSettled(kf: KeyFinder, fields: map<string, Value>, seconds: int)
    requires Annotation(kf, fields) == Some(FormatDuration(seconds))
    ensures var g := fields[kf.resultKey := Scalar(Str(FormatDuration(seconds)))];
      Annotation(kf, g).Some? ==> g[kf.resultKey] == Scalar(Str(Annotation(kf, g).value))
  {
    var g := fields[kf.resultKey := Scalar(Str(FormatDuration(seconds)))];
    if kf.resultKey == kf.fromKey || kf.resultKey == kf.toKey {
      DurationIsNotTimestamp(seconds);
      assert Annotation(kf, g).None?;
    } else {
      FindPairLocal(kf, g, fields);
    }
  }

  /** Augmentation settles every tree. */
  lemma {:induction false} AugmentSettles(kf: KeyFinder, v: Value)
    ensures Settled(kf, Augment(kf, v))
  {
    var r := Augment(kf, v);
    match v
    case Scalar(_) =>
    case Array(items) =>
      forall i | 0 <= i < |items|
        ensures Settled(kf, r.items[i])
      {
        AugmentSettles(kf, items[i]);
      }
    case Object(fields) =>
      AugmentedNodeSettled(kf, fields);
      forall k | k in r.fields
        ensures Settled(kf, r.fields[k])
      {
        if k in fields && (k != kf.resultKey || Annotation(kf, fields).None?) {
          AugmentSettles(kf, fields[k]);
        }
      }
  }

  /** Augmentation leaves a tree exactly as it is if and only if the tree is already settled. */
  lemma {:induction false} FixedPointIffSettled(kf: KeyFinder, v: Value)
    ensures Augment(kf, v) == v <==> Settled(kf, v)
  {
    var r := Augment(kf, v);
    match v
    case Scalar(_) =>
    case Array(items) =>
      if r == v {
        forall i | 0 <= i < |items|
          ensures Settled(kf, items[i])
        {
          FixedPointIffSettled(kf, items[i]);
        }
      }
      if Settled(kf, v) {
        forall i | 0 <= i < |items|
          ensures r.items[i] == items[i]
        {
          FixedPointIffSettled(kf, items[i]);
        }
        assert r.items == items;
      }
    case Object(fields) =>
      if r == v {
        forall k | k in fields
          ensures Settled(kf, fields[k])
        {
          if k != kf.resultKey || Annotation(kf, fields).None? {
            FixedPointIffSettled(kf, fields[k]);
          }
        }
      }
      if Settled(kf, v) {
        forall k | k in fields
          ensures r.fields[k] == fields[k]
        {
          if k != kf.resultKey || Annotation(kf, fields).None? {
            FixedPointIffSettled(kf, fields[k]);
          }
        }
        assert r.fields == fields;
      }
  }

  /** Augmenting an augmented document changes nothing: the interval recomputes to the same string. */
  lemma Idempotent(kf: KeyFinder, v: Value)
    ensures Augment(kf, Augment(kf, v)) == Augment(kf, v)
  {
    AugmentSettles(kf, v);
    FixedPointIffSettled(kf, Augment(kf, v));
  }

  /**
   A path that exists in `v` and that augmentation keeps: it never leaves an
   object node through the result key when that node receives an interval,
   since that member is replaced by the interval's string.
   */
  predicate Walked(kf: KeyFinder, v: Value, path: seq<Step>)
    decreases |path|
  {
    if path == [] then true
    else match (v, path[0])
      case (Object(fields), Key(k)) =>
        && k in fields
        && (k != kf.resultKey || Annotation(kf, fields).None?)
        && Walked(kf, fields[k], path[1..])
      case (Array(items), Index(i)) =>
        i < |items| && Walked(kf, items[i], path[1..])
      case _ => false
  }

  /**
   Along any such path the node reached in the augmented tree is the
   augmentation of the node reached in the original: the walk reaches every
   depth through objects and arrays.
   */
  lemma {:induction false} AugmentAt(kf: KeyFinder, v: Value, path: seq<Step>)
    requires Walked(kf, v, path)
    ensures At(v, path).Some?
    ensures At(Augment(kf, v), path) == Some(Augment(kf, At(v, path).value))
    decreases |path|
  {
    if path != [] {
      match (v, path[0])
      case (Object(fields), Key(k)) =>
        AugmentAt(kf, fields[k], path[1..]);
      case (Array(items), Index(i)) =>
        AugmentAt(kf, items[i], path[1..]);
    }
  }

  /**
   Full coverage: every object node anywhere in the document carries the
   result key after augmentation exactly when it matched or already had
   one, and when it matched the key holds the computed interval.
   */
  lemma FullCoverage(kf: KeyFinder, v: Value, path: seq<Step>, fields: map<string, Value>)
    requires At(v, path) == Some(Object(fields)) && Walked(kf, v, path)
    ensures At(Augment(kf, v), path).Some? && At(Augment(kf, v), path).value.Object?
    ensures kf.resultKey in At(Augment(kf, v), path).value.fields
      <==> kf.resultKey in fields || Annotation(kf, fields).Some?
    ensures Annotation(kf, fields).Some? ==>
      At(Augment(kf, v), path).value.fields[kf.resultKey] == Scalar(Str(Annotation(kf, fields).value))
  {
    AugmentAt(kf, v, path);
  }

  /** An object node whose timestamps do not match keeps exactly its members, each augmented in turn. */
  lemma NonMatchSilent(kf: KeyFinder, fields: map<string, Value>)
    requires Annotation(kf, fields).None?
    ensures Augment(kf, Object(fields)) == Object(AugmentChildren(kf, fields))
  {
  }
}
