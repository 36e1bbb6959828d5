/**
 * The slice of JavaScript value semantics the plugin relies on: an event
 * property is either absent (`undefined`, also what `?.` yields when the
 * properties object itself is missing) or a string, and `a || b` picks `a`
 * only when it is truthy.
 */
module JsValues {

  datatype Option<+T> = None | Some(value: T)

  /** JavaScript truthiness of an absent-or-string value: `undefined` and `""` are falsy. */
  predicate Truthy(a: Option<string>) {
    a.Some? && a.value != ""
  }

  /** JavaScript's `a || fallback` where `a` is absent or a string. */
  function Or(a: Option<string>, fallback: string): (r: string)
    ensures Truthy(a) ==> Some(r) == a
    ensures !Truthy(a) ==> r == fallback
    ensures r == "" <==> !Truthy(a) && fallback == ""
  {
    if Truthy(a) then a.value else fallback
  }

  /** `a || b || ""`: the first truthy of two optional strings, else the empty string. */
  function FirstTruthy(a: Option<string>, b: Option<string>): (r: string)
    ensures Truthy(a) ==> r == a.value
    ensures !Truthy(a) && Truthy(b) ==> r == b.value
    ensures r == "" <==> !Truthy(a) && !Truthy(b)
  {
    Or(a, Or(b, ""))
  }
}
