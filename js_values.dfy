/** Plain JavaScript values as the screens see them. */
module JsValues {

  /** A value that may be `undefined`. */
  datatype Option<+T> = None | Some(value: T)

  /** A plain object whose fields hold strings: a transaction record, a parsed query string. */
  type Record = map<string, string>

  /** Property access `m[k]`, `undefined` when the key is absent. */
  function Lookup<K, V>(m: map<K, V>, k: K): (r: Option<V>)
    ensures r.Some? <==> k in m
    ensures r.Some? ==> r.value == m[k]
  {
    if k in m then Some(m[k]) else None
  }

  /** JavaScript truthiness of a string that may be missing: `undefined` and `""` are falsy. */
  predicate Truthy(v: Option<string>) {
    v.Some? && v.value != ""
  }

  /** How a template literal `${v}` renders a value that may be `undefined`. */
  function Render(v: Option<string>): string {
    match v
    case None => "undefined"
    case Some(s) => s
  }
}
