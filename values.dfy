/**
 * The JavaScript values that reach the launcher's core from outside: parsed
 * JSON configuration files and the arguments of IPC messages. Only the parts
 * of JavaScript semantics the core relies on are modelled: truthiness and
 * reading a property of an object.
 */
module Values {
  import opened Wrappers

  /** A parsed JSON value (or a structured-clone IPC argument). */
  datatype Json =
    | JNull
    | JBool(b: bool)
    | JNum(n: real)
    | JStr(s: string)
    | JArr(items: seq<Json>)
    | JObj(fields: map<string, Json>)

  /**
   * JavaScript truthiness; `None` stands for `undefined`. The falsy values
   * are exactly `undefined`, `null`, `false`, `0` and the empty string.
   */
  function Truthy(v: Option<Json>): (b: bool)
    ensures !b <==> v == None || v == Some(JNull) || v == Some(JBool(false)) || v == Some(JNum(0.0)) || v == Some(JStr(""))
  {
    match v
    case None => false
    case Some(JNull) => false
    case Some(JBool(b)) => b
    case Some(JNum(n)) => n != 0.0
    case Some(JStr(s)) => s != ""
    case Some(JArr(_)) => true
    case Some(JObj(_)) => true
  }

  /**
   * `v[key]` for a defined `v`: only objects have the own properties the core
   * reads; every other value yields `undefined`.
   */
  function Member(v: Option<Json>, key: string): (r: Option<Json>)
    ensures r.Some? <==> v.Some? && v.value.JObj? && key in v.value.fields
    ensures r.Some? ==> r.value == v.value.fields[key]
  {
    match v
    case Some(JObj(fields)) => if key in fields then Some(fields[key]) else None
    case _ => None
  }

  /** `typeof v === 'string'`, giving the string. */
  function AsString(v: Option<Json>): (r: Option<string>)
    ensures r.Some? <==> v.Some? && v.value.JStr?
    ensures r.Some? ==> v == Some(JStr(r.value))
  {
    match v
    case Some(JStr(s)) => Some(s)
    case _ => None
  }

  /** `a || b`: the first operand when it is truthy, else the second. */
  function Or(a: Option<Json>, b: Option<Json>): (r: Option<Json>)
    ensures Truthy(a) ==> r == a
    ensures !Truthy(a) ==> r == b
  {
    if Truthy(a) then a else b
  }
}
