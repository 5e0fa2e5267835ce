/**
 The documents of the repository's Append tests, as decoded trees, and what
 augmentation with the default finder makes of each. The JSON and YAML
 variants of a test decode to the same tree, so one lemma covers both.
 */
module Scenarios {
  import opened Results
  import opened Values
  import opened KeyFinders
  import opened Intervals
  import opened Durations
  import opened Augmenter
  import opened Pipeline
  import Timestamp
  import Decimal

  const Midnight: string := "2020-01-01 00:00:00"
  const OneSecondLater: string := "2020-01-01 00:00:01"

  function Text(s: string): (v: Value) {
    Scalar(Str(s))
  }

  /** An object holding exactly the two default timestamp members. */
  function Stamped(from: string, to: string): (fields: map<string, Value>) {
    map["created_at" := Text(from), "updated_at" := Text(to)]
  }

  /** Empty key names select `created_at`, `updated_at`, and the result goes under `duration`. */
  lemma DefaultFinder()
    ensures NewKeyFinder("", "") == KeyFinder("created_at", "updated_at", "duration")
  {
  }

  lemma PadSmall()
    ensures Decimal.PadDigits(1, 2) == "01" && Decimal.PadDigits(0, 2) == "00"
  {
    assert Decimal.PadDigits(0, 1) == "0";
    assert Decimal.PadDigits(1, 2) == Decimal.PadDigits(0, 1) + "1";
  }

  lemma PadYear2020()
    ensures Decimal.PadDigits(2020, 4) == "2020"
  {
    assert Decimal.PadDigits(2, 1) == "2";
    assert Decimal.PadDigits(20, 2) == Decimal.PadDigits(2, 1) + "0";
    assert Decimal.PadDigits(202, 3) == Decimal.PadDigits(20, 2) + "2";
    assert Decimal.PadDigits(2020, 4) == Decimal.PadDigits(202, 3) + "0";
  }

  /** The digit groups of both test timestamps denote the numbers they spell. */
  lemma TestDigits()
    ensures Decimal.DecimalValue("2020") == 2020
    ensures Decimal.DecimalValue("01") == 1 && Decimal.DecimalValue("00") == 0
  {
    PadYear2020();
    PadSmall();
    Decimal.PadDigitsValue(2020, 4);
    Decimal.PadDigitsValue(1, 2);
    Decimal.PadDigitsValue(0, 2);
  }

  /** The digit groups of a test timestamp, read off the layout positions. */
  lemma TestGroups(s: string, last: string)
    requires s == "2020-01-01 00:00:" + last && (last == "00" || last == "01")
    ensures |s| == 19 && s[4] == '-' && s[7] == '-' && s[10] == ' ' && s[13] == ':' && s[16] == ':'
    ensures s[0..4] == "2020" && s[5..7] == "01" && s[8..10] == "01"
    ensures s[11..13] == "00" && s[14..16] == "00" && s[17..19] == last
  {
  }

  /** A test timestamp parses to midnight of 2020-01-01 plus `second` seconds. */
  lemma ParseTestStamp(s: string, last: string, second: nat)
    requires s == "2020-01-01 00:00:" + last
    requires (last == "00" && second == 0) || (last == "01" && second == 1)
    ensures Timestamp.Parse(s) == Some(Timestamp.DateTime(2020, 1, 1, 0, 0, second))
  {
    TestGroups(s, last);
    TestDigits();
    assert Timestamp.WellShaped(s);
    assert Timestamp.Fields(s) == Timestamp.DateTime(2020, 1, 1, 0, 0, second);
  }

  lemma ParseMidnight()
    ensures Timestamp.Parse(Midnight) == Some(Timestamp.DateTime(2020, 1, 1, 0, 0, 0))
  {
    ParseTestStamp(Midnight, "00", 0);
  }

  lemma ParseOneSecondLater()
    ensures Timestamp.Parse(OneSecondLater) == Some(Timestamp.DateTime(2020, 1, 1, 0, 0, 1))
  {
    ParseTestStamp(OneSecondLater, "01", 1);
  }

  /** The two timestamps of the tests lie one second apart. */
  lemma OneSecondApart()
    ensures ComputeInterval(Midnight, OneSecondLater) == Success(1)
  {
    ParseMidnight();
    ParseOneSecondLater();
  }

  /** A from-member outside the layout yields no interval. */
  lemma UnparseableFrom()
    ensures ComputeInterval("hoge", OneSecondLater).Failure?
  {
  }

  lemma OneSecondRendering()
    ensures FormatDuration(1) == "1s"
  {
    assert Decimal.NatToString(1) == "1";
  }

  /** The matching object of the tests receives "1s". */
  lemma StampedAnnotation()
    ensures Annotation(NewKeyFinder("", ""), Stamped(Midnight, OneSecondLater)) == Some("1s")
  {
    var kf := NewKeyFinder("", "");
    assert FindPair(kf, Stamped(Midnight, OneSecondLater)) == Some(Pair(Midnight, OneSecondLater));
    OneSecondApart();
    OneSecondRendering();
  }

  /** Members that are all scalars come through the descent untouched. */
  lemma ScalarMembersUnchanged(kf: KeyFinder, fields: map<string, Value>)
    requires forall k :: k in fields ==> fields[k].Scalar?
    ensures AugmentChildren(kf, fields) == fields
  {
  }

  /** The stamped object, augmented: the duration added, both timestamps as they were. */
  lemma AugmentStamped()
    ensures Augment(NewKeyFinder("", ""), Object(Stamped(Midnight, OneSecondLater)))
      == Object(Stamped(Midnight, OneSecondLater)["duration" := Text("1s")])
  {
    var kf := NewKeyFinder("", "");
    var fields := Stamped(Midnight, OneSecondLater);
    StampedAnnotation();
    ScalarMembersUnchanged(kf, fields);
  }

  /** Test "can find keys": the one object of the array gains `duration` = "1s". */
  lemma CanFindKeys()
    ensures Augment(NewKeyFinder("", ""), Array([Object(Stamped(Midnight, OneSecondLater))]))
      == Array([Object(Stamped(Midnight, OneSecondLater)["duration" := Text("1s")])])
  {
    AugmentStamped();
  }

  /** An object whose only member is `hoge` never matches; the walk still descends into it. */
  lemma HogeWrapper(w: Value)
    ensures Augment(NewKeyFinder("", ""), Object(map["hoge" := w]))
      == Object(map["hoge" := Augment(NewKeyFinder("", ""), w)])
  {
    var kf := NewKeyFinder("", "");
    var outer := map["hoge" := w];
    assert FindPair(kf, outer).None?;
    assert Augment(kf, Object(outer)).fields == map["hoge" := Augment(kf, w)];
  }

  /** Test "nested map": the match one level down is annotated, the outer object is not. */
  lemma NestedMap()
    ensures Augment(NewKeyFinder("", ""),
                    Array([Object(map["hoge" := Object(Stamped(Midnight, OneSecondLater))])]))
      == Array([Object(map["hoge" := Object(Stamped(Midnight, OneSecondLater)["duration" := Text("1s")])])])
  {
    AugmentStamped();
    HogeWrapper(Object(Stamped(Midnight, OneSecondLater)));
  }

  /** Test "nested list": the match inside an array held by a member is annotated too. */
  lemma NestedList()
    ensures Augment(NewKeyFinder("", ""),
                    Array([Object(map["hoge" := Array([Object(Stamped(Midnight, OneSecondLater))])])]))
      == Array([Object(map["hoge" := Array([Object(Stamped(Midnight, OneSecondLater)["duration" := Text("1s")])])])])
  {
    var kf := NewKeyFinder("", "");
    var inner := Array([Object(Stamped(Midnight, OneSecondLater))]);
    CanFindKeys();
    assert Augment(kf, inner) == Array([Object(Stamped(Midnight, OneSecondLater)["duration" := Text("1s")])]);
    HogeWrapper(inner);
  }

  /** Test "cant find from key": without `created_at` the object is returned as decoded. */
  lemma MissingFromKey()
    ensures var doc := Array([Object(map["hoge" := Text(Midnight), "updated_at" := Text(OneSecondLater)])]);
      Augment(NewKeyFinder("", ""), doc) == doc
  {
    var kf := NewKeyFinder("", "");
    var fields := map["hoge" := Text(Midnight), "updated_at" := Text(OneSecondLater)];
    assert FindPair(kf, fields).None?;
    ScalarMembersUnchanged(kf, fields);
  }

  /** Test "cant find to key": without `updated_at` the object is returned as decoded. */
  lemma MissingToKey()
    ensures var doc := Array([Object(map["created_at" := Text(Midnight), "hoge" := Text(OneSecondLater)])]);
      Augment(NewKeyFinder("", ""), doc) == doc
  {
    var kf := NewKeyFinder("", "");
    var fields := map["created_at" := Text(Midnight), "hoge" := Text(OneSecondLater)];
    assert FindPair(kf, fields).None?;
    ScalarMembersUnchanged(kf, fields);
  }

  /** Test "cant parse time": a from-timestamp outside the layout leaves the object as decoded. */
  lemma UnparseableTime()
    ensures var doc := Array([Object(Stamped("hoge", OneSecondLater))]);
      Augment(NewKeyFinder("", ""), doc) == doc
  {
    var kf := NewKeyFinder("", "");
    var fields := Stamped("hoge", OneSecondLater);
    assert FindPair(kf, fields) == Some(Pair("hoge", OneSecondLater));
    UnparseableFrom();
    ScalarMembersUnchanged(kf, fields);
  }

  /**
   Test "cant unmarshal" (JSON and YAML): for a format that cannot decode
   `hoge`, Append fails with that error and produces no output.
   */
  lemma CantUnmarshal(kf: KeyFinder, codec: Codec)
    requires codec.decode("hoge").Failure?
    ensures Append(kf, codec, "hoge") == Failure(codec.decode("hoge").error)
  {
  }
}
