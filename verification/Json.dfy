// JSON documents as `serde_json::Value` holds them, read up to the order of an
// object's members.
module Json {
  import opened Options
  import opened Text

  /** An integer literal, or any other number by the text it prints as. */
  datatype Num = Int(n: int) | Float(repr: string)

  datatype Value =
    | Null
    | Bool(b: bool)
    | Number(num: Num)
    | String(s: string)
    | Array(items: seq<Value>)
    | Object(fields: map<string, Value>)
  {
    /** `Value::get(key)`: a member of an object, nothing of anything else. */
    function Get(key: string): Option<Value> {
      if Object? && key in fields then Some(fields[key]) else None
    }

    /** `Value::pointer("/a/b")` along member names. */
    function Pointer(path: seq<string>): Option<Value>
      decreases |path|
    {
      if path == [] then Some(this) else
        match Get(path[0])
        case None => None
        case Some(v) => v.Pointer(path[1..])
    }

    function AsStr(): Option<string> {
      if String? then Some(s) else None
    }

    function AsU64(): Option<nat> {
      if Number? && num.Int? && 0 <= num.n < U64_LIMIT then Some(num.n) else None
    }

    function AsI64(): Option<int> {
      if Number? && num.Int? && -I64_LIMIT <= num.n < I64_LIMIT then Some(num.n) else None
    }
  }

  /** A string member reached by `path`: `pointer(..).and_then(Value::as_str)`. */
  function StrAt(v: Value, path: seq<string>): Option<string> {
    match v.Pointer(path)
    case None => None
    case Some(x) => x.AsStr()
  }

  /** The members of an object; any other value counts as the empty object. */
  function Members(v: Value): map<string, Value> {
    if v.Object? then v.fields else map[]
  }

  function Lookup(m: map<string, Value>, key: string): Option<Value> {
    if key in m then Some(m[key]) else None
  }

  function Integer(n: int): Value {
    Number(Int(n))
  }
}
