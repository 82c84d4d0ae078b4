/**
 * JSON values as the catalog and the vector store hand them to the pipeline,
 * with Python's truthiness, `str()` and `dict.get`.
 */
module Json {
  import opened PyText

  datatype Value =
    | Null
    | Bool(b: bool)
    | Int(i: int)
    | Str(s: string)
    | List(items: seq<Value>)

  /** A catalog entry or a document's metadata: a JSON object. */
  type Entry = map<string, Value>

  /** Python truthiness: None, False, 0, "" and [] are falsy, everything else is truthy. */
  predicate Truthy(v: Value): (r: bool)
    ensures r <==> !(v == Null || v == Bool(false) || v == Int(0) || v == Str("") || v == List([]))
  {
    match v
    case Null => false
    case Bool(b) => b
    case Int(i) => i != 0
    case Str(s) => s != []
    case List(items) => items != []
  }

  function Join(sep: string, parts: seq<string>): string {
    if parts == [] then []
    else if |parts| == 1 then parts[0]
    else parts[0] + sep + Join(sep, parts[1..])
  }

  /**
   * `str(v)`. For a list this is `repr` of its items between brackets; strings
   * inside a list are always put between single quotes, which differs from
   * Python only in quote choice and escapes, neither of which is a digit or a
   * letter.
   */
  function ToStr(v: Value): (r: string)
    ensures v.Str? ==> r == v.s
    ensures v.List? ==> |r| >= 2 && r[0] == '[' && r[|r| - 1] == ']'
  {
    if v.Str? then v.s else Repr(v)
  }

  /**
   * `repr(v)`: never empty; a string between quotes, a list between brackets,
   * and a non-negative integer as decimal digits that read back as it.
   */
  function Repr(v: Value): (r: string)
    ensures r != []
    ensures v.Str? ==> |r| == |v.s| + 2 && r[0] == '\'' == r[|r| - 1] && r[1..|r| - 1] == v.s
    ensures v.List? ==> |r| >= 2 && r[0] == '[' && r[|r| - 1] == ']'
    ensures v.Int? && 0 <= v.i ==> (forall j :: 0 <= j < |r| ==> IsDigit(r[j])) && DigitsValue(r) == v.i
  {
    match v
    case Null => "None"
    case Bool(b) => if b then "True" else "False"
    case Int(i) =>
      if i < 0 then IntString(i)
      else
        DecimalRoundTrip(i);
        IntString(i)
    case Str(s) => "'" + s + "'"
    case List(items) => "[" + Join(", ", seq(|items|, i requires 0 <= i < |items| => Repr(items[i]))) + "]"
  }

  /** `m.get(key, default)` */
  function Get(m: Entry, key: string, default: Value): (r: Value)
    ensures key in m ==> r == m[key]
    ensures key !in m ==> r == default
  {
    if key in m then m[key] else default
  }
}
