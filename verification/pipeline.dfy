/**
 The entry point Append: decode the document with the chosen format,
 augment the tree, encode it again with the same format. A format is a
 pair of functions supplied by the caller; the JSON and YAML
 implementations (their syntax, quoting and key order) are not part of
 this model.
 */
module Pipeline {
  import opened Results
  import opened Values
  import opened KeyFinders
  import opened Augmenter

  /** A serialization format: decode text into a tree, encode a tree into text. */
  datatype Codec = Codec(decode: string -> Result<Value, string>, encode: Value -> Result<string, string>)

  /**
   Decode, augment, encode. A decode failure is returned as it is, with no
   output; an encode failure likewise.
   */
  function Append(kf: KeyFinder, codec: Codec, input: string): (r: Result<string, string>)
    ensures codec.decode(input).Failure? ==> r == Failure(codec.decode(input).error)
    ensures r.Success? ==>
      codec.decode(input).Success?
      && codec.encode(Augment(kf, codec.decode(input).value)) == Success(r.value)
  {
    match codec.decode(input)
    case Failure(e) => Failure(e)
    case Success(tree) => codec.encode(Augment(kf, tree))
  }

  /** The format encodes every tree that augmentation produces. */
  ghost predicate EncodesAugmented(kf: KeyFinder, codec: Codec) {
    forall v :: codec.encode(Augment(kf, v)).Success?
  }

  /** The format reads back every tree it writes. */
  ghost predicate Lossless(codec: Codec) {
    forall v :: codec.encode(v).Success? ==> codec.decode(codec.encode(v).value) == Success(v)
  }

  /** With an encoder that never fails on an augmented tree, Append fails exactly when decoding fails. */
  lemma AppendFailsOnlyOnDecode(kf: KeyFinder, codec: Codec, input: string)
    requires EncodesAugmented(kf, codec)
    ensures Append(kf, codec, input).Failure? <==> codec.decode(input).Failure?
  {
    if codec.decode(input).Success? {
      assert codec.encode(Augment(kf, codec.decode(input).value)).Success?;
    }
  }

  /**
   Feeding Append its own output changes nothing, for a format that reads
   back what it writes: the second pass recomputes the same intervals.
   */
  lemma AppendIdempotent(kf: KeyFinder, codec: Codec, input: string)
    requires Lossless(codec)
    requires Append(kf, codec, input).Success?
    ensures Append(kf, codec, Append(kf, codec, input).value) == Append(kf, codec, input)
  {
    var tree := codec.decode(input).value;
    var out := Append(kf, codec, input).value;
    var augmented := Augment(kf, tree);
    assert codec.encode(augmented) == Success(out);
    assert codec.decode(out) == Success(augmented);
    Idempotent(kf, tree);
  }
}
