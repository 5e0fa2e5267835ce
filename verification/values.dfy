/**
 The generic document tree every serialization format decodes into: an
 unordered object of named members, an ordered array, or a scalar.
 */
module Values {
  import opened Results

  datatype Scalar = Str(s: string) | Num(n: real) | Bool(b: bool) | Null

  datatype Value =
    | Object(fields: map<string, Value>)
    | Array(items: seq<Value>)
    | Scalar(scalar: Scalar)

  /** One step of a path from the root: an object member or an array position. */
  datatype Step = Key(key: string) | Index(index: nat)

  /** The node reached from `v` along `path`, if the path exists. */
  function At(v: Value, path: seq<Step>): (r: Option<Value>)
    decreases |path|
  {
    if path == [] then Some(v)
    else match (v, path[0])
      case (Object(fields), Key(k)) =>
        if k in fields then At(fields[k], path[1..]) else None
      case (Array(items), Index(i)) =>
        if i < |items| then At(items[i], path[1..]) else None
      case _ => None
  }
}
