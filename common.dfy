/** Failure-compatible wrappers shared by every module of the backend model. */
module Common {

  datatype Option<+T> = None | Some(value: T) {
    function GetOr(default: T): T {
      match this
      case Some(v) => v
      case None => default
    }
  }

  /** The endpoints return `{success: true, ...}` or `{success: false, error}`;
      `Err` carries the error message. */
  datatype Result<+T> = Ok(value: T) | Err(error: string)

  /** A JavaScript number that may be missing (undefined, null or not a number). */
  type Num = Option<real>

  /** JavaScript truthiness of a possibly missing number: 0, undefined and null are falsy. */
  predicate TruthyNum(x: Num) {
    x.Some? && x.value != 0.0
  }

  /** JavaScript truthiness of a possibly missing string: "" is falsy. */
  predicate TruthyStr(s: Option<string>) {
    s.Some? && s.value != ""
  }

  /** `a || b` on numbers: `a` when it is truthy, `b` otherwise. */
  function OrNum(a: Num, b: Num): Num {
    if TruthyNum(a) then a else b
  }

  /** `a || b` on strings. */
  function OrStr(a: string, b: string): string {
    if a != "" then a else b
  }

  /** `x || null` on a number: a falsy value becomes null. */
  function OrNull(x: Num): Num {
    if TruthyNum(x) then x else None
  }

  function Min(a: real, b: real): real { if a <= b then a else b }
  function Max(a: real, b: real): real { if a >= b then a else b }
}
