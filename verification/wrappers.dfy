/** Optional values, failures and JavaScript numbers as the analyser's code sees them. */
module Wrappers {

  /** `undefined`/`null` versus a present value. */
  datatype Option<+T> = None | Some(value: T)

  /** A call that either returns a value or throws an error carrying a message. */
  datatype Result<+T> = Ok(value: T) | Throws(message: string)

  /** A JavaScript number: a finite value or NaN (what `undefined * 1` and `Math.min(1, undefined)`
      evaluate to). Infinities do not arise in the modelled code. */
  datatype Num = Finite(value: real) | NaN

  /** `Math.min(a, b)`: NaN if either operand is NaN. */
  function JsMin(a: Num, b: Num): (r: Num)
    ensures r.Finite? <==> a.Finite? && b.Finite?
    ensures r.Finite? ==> r.value <= a.value && r.value <= b.value
    ensures r.Finite? ==> r.value == a.value || r.value == b.value
  {
    if a.NaN? || b.NaN? then NaN
    else if a.value <= b.value then a else b
  }

  /** `Math.max(a, b)`: NaN if either operand is NaN. */
  function JsMax(a: Num, b: Num): (r: Num)
    ensures r.Finite? <==> a.Finite? && b.Finite?
    ensures r.Finite? ==> r.value >= a.value && r.value >= b.value
    ensures r.Finite? ==> r.value == a.value || r.value == b.value
  {
    if a.NaN? || b.NaN? then NaN
    else if a.value >= b.value then a else b
  }

  /** The real value of a finite number, 0 for NaN; used only where a number is known to be finite. */
  function ValueOr0(n: Num): real {
    if n.Finite? then n.value else 0.0
  }
}
