/** JavaScript values as far as the wizard observes them. */
module Values {

  datatype Option<+T> = None | Some(value: T)

  /** An `App` property as `App.get` returns it: a missing property is
      `undefined`, the counters are numbers, `isDope` is a string and
      `get`/`set`/`forward`/`backward` are functions. */
  datatype JsValue = Undefined | Str(s: string) | Num(n: int) | Function

  /** A DOM attribute read with `attr(...)`: `undefined` when absent. */
  function AttrValue(a: Option<string>): (v: JsValue)
    ensures a.None? <==> v == Undefined
    ensures v.Str? <==> a.Some?
    ensures a.Some? ==> v == Str(a.value)
  {
    match a
    case None => Undefined
    case Some(s) => Str(s)
  }

  /** JavaScript truthiness of an attribute value: `undefined` and the
      empty string are falsy, every other string is truthy. */
  predicate Truthy(a: Option<string>) {
    a.Some? && a.value != ""
  }

  /** The key under which a value is stored in an object: `obj[undefined]`
      uses the string "undefined". */
  function Key(a: Option<string>): (k: string)
    ensures a.Some? ==> k == a.value
  {
    match a
    case None => "undefined"
    case Some(s) => s
  }
}
