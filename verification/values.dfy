/**
 * Decoded configuration and transcript data: the values `json.load` and
 * `tomllib.load` produce, and the two Python operations the modelled code
 * applies to them without checking their type first, `d.get(key, default)`
 * and `for x in v`. Either raises on a value of the wrong type; the raised
 * message is the error.
 */
module Values {
  import opened Results

  /**
   * An object keeps its entries in order; a decoded object has no repeated
   * key. Of a float only whether it is zero is kept.
   */
  datatype Value =
    | Null
    | Bool(b: bool)
    | Int(i: int)
    | Float(zero: bool)
    | Str(s: string)
    | Arr(items: seq<Value>)
    | Obj(entries: seq<(string, Value)>)

  /** Python's name for the type of a value. */
  function TypeName(v: Value): string {
    match v
    case Null => "NoneType"
    case Bool(_) => "bool"
    case Int(_) => "int"
    case Float(_) => "float"
    case Str(_) => "str"
    case Arr(_) => "list"
    case Obj(_) => "dict"
  }

  /** Python's truth value of a value. */
  predicate Truthy(v: Value) {
    match v
    case Null => false
    case Bool(b) => b
    case Int(i) => i != 0
    case Float(zero) => !zero
    case Str(s) => s != []
    case Arr(items) => items != []
    case Obj(entries) => entries != []
  }

  /** The value stored under `key` among `entries`, if any. */
  function Lookup(entries: seq<(string, Value)>, key: string): (r: Option<Value>)
    ensures r.Some? <==> exists k :: 0 <= k < |entries| && entries[k].0 == key
    ensures r.Some? ==> exists k :: 0 <= k < |entries| && entries[k] == (key, r.value)
    decreases |entries|
  {
    if entries == [] then None
    else if entries[0].0 == key then Some(entries[0].1)
    else
      var r := Lookup(entries[1..], key);
      assert forall k :: 0 <= k < |entries| - 1 ==> entries[1..][k] == entries[k + 1];
      r
  }

  /** `v.get(key, default)`: only a dictionary has `get`. */
  function Get(v: Value, key: string, default: Value): (r: Result<Value, string>)
    ensures r.Ok? <==> v.Obj?
  {
    match v
    case Obj(entries) => Ok(Lookup(entries, key).GetOr(default))
    case _ => Err("'" + TypeName(v) + "' object has no attribute 'get'")
  }

  /** The keys of an object, in order. */
  function Keys(entries: seq<(string, Value)>): (r: seq<Value>)
    ensures |r| == |entries|
    ensures forall k :: 0 <= k < |r| ==> r[k] == Str(entries[k].0)
  {
    if entries == [] then [] else [Str(entries[0].0)] + Keys(entries[1..])
  }

  /** The one-character strings of `s`. */
  function Chars(s: string): (r: seq<Value>)
    ensures |r| == |s|
    ensures forall k :: 0 <= k < |r| ==> r[k] == Str([s[k]])
  {
    if s == [] then [] else [Str([s[0]])] + Chars(s[1..])
  }

  /**
   * What `for x in v` visits: the items of a list, the characters of a
   * string, the keys of a dictionary; anything else is not iterable.
   */
  function Elements(v: Value): (r: Result<seq<Value>, string>)
    ensures r.Ok? <==> v.Arr? || v.Str? || v.Obj?
    ensures v.Arr? ==> r == Ok(v.items)
  {
    match v
    case Arr(items) => Ok(items)
    case Str(s) => Ok(Chars(s))
    case Obj(entries) => Ok(Keys(entries))
    case _ => Err("'" + TypeName(v) + "' object is not iterable")
  }

  /** The strings among `vs`, in order (`[x for x in vs if isinstance(x, str)]`). */
  function Strings(vs: seq<Value>): (r: seq<string>)
    ensures forall x :: x in r <==> Str(x) in vs
    ensures |r| <= |vs|
    decreases |vs|
  {
    if vs == [] then []
    else
      var rest := Strings(vs[1..]);
      assert forall x :: Str(x) in vs <==> Str(x) == vs[0] || Str(x) in vs[1..];
      match vs[0]
      case Str(s) => [s] + rest
      case _ => rest
  }

  /** A list of strings keeps all of them, in order. */
  lemma {:induction false} StringsOfStrings(xs: seq<string>, vs: seq<Value>)
    requires |vs| == |xs| && forall k :: 0 <= k < |xs| ==> vs[k] == Str(xs[k])
    ensures Strings(vs) == xs
    decreases |xs|
  {
    if xs != [] {
      StringsOfStrings(xs[1..], vs[1..]);
    }
  }
}
