/** The JSON values that the domain objects' `toJSON` methods produce. */
module JsonValues {
  import opened Wrappers

  /** A JSON value. Objects keep their members in insertion order, as JavaScript objects do.
      `JTime` stands for the ISO-8601 string that `Date.prototype.toISOString` produces. */
  datatype Json =
    | JNull
    | JBool(b: bool)
    | JNum(n: real)
    | JStr(s: string)
    | JTime(t: nat)
    | JObj(members: seq<(string, Json)>)

  /** The member names of an object, in order. */
  function Keys(members: seq<(string, Json)>): (ks: seq<string>)
    ensures |ks| == |members|
    ensures forall i :: 0 <= i < |members| ==> ks[i] == members[i].0
  {
    if members == [] then [] else [members[0].0] + Keys(members[1..])
  }

  /** JSON encoding of a nullable number. */
  function OptNum(o: Option<real>): Json {
    match o
    case None => JNull
    case Some(n) => JNum(n)
  }

  /** Decodes a nullable number; `None` when `j` is neither null nor a number. */
  function AsOptNum(j: Json): Option<Option<real>> {
    match j
    case JNull => Some(None)
    case JNum(n) => Some(Some(n))
    case _ => None
  }

  /** Decodes a nullable integer written as a JSON number; `None` when it is not one. */
  function AsOptInt(j: Json): Option<Option<int>> {
    match j
    case JNull => Some(None)
    case JNum(n) => if n == n.Floor as real then Some(Some(n.Floor)) else None
    case _ => None
  }
}
