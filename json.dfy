/**
 * The JSON-like values that the serializers read from requests and write into
 * representations, and the Python dictionary that holds them.
 */
module Json {

  /** A primitive or nested value of a representation. `Null` is Python's `None`. */
  datatype Value = Null | Bool(b: bool) | Int(n: int) | Str(s: string) | Obj(fields: map<string, Value>)

  /** Python's truth value of the object that `v` stands for. */
  predicate Truthy(v: Value)
  {
    match v
    case Null => false
    case Bool(b) => b
    case Int(n) => n != 0
    case Str(s) => s != ""
    case Obj(m) => |m| != 0
  }

  /** `d.get(key, default)` */
  function Get(d: map<string, Value>, key: string, default: Value): Value
  {
    if key in d then d[key] else default
  }

  /** A Python `dict` from field names to values, changed in place. */
  class Dict {
    var items: map<string, Value>

    constructor (m: map<string, Value>)
      ensures items == m
    {
      items := m;
    }

    /** `d.pop(key, default)`: removes `key` and returns its value, or `default` when it is absent. */
    method Pop(key: string, default: Value) returns (v: Value)
      modifies this
      ensures v == Get(old(items), key, default)
      ensures items == old(items) - {key}
    {
      v := Get(items, key, default);
      items := items - {key};
    }

    /** `d[key] = v` */
    method Put(key: string, v: Value)
      modifies this
      ensures items == old(items)[key := v]
    {
      items := items[key := v];
    }
  }
}
