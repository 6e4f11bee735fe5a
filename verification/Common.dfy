/** Datatypes shared by every component, and the number range the Worker's JavaScript uses. */
module Common {

  datatype Option<+T> = None | Some(value: T)

  /** A value, or the message of the exception or error return that replaced it. */
  datatype Result<+T> = Ok(value: T) | Err(error: string)

  /** The state an operation leaves behind, exception or not, with what it returned. */
  datatype Outcome<+S, +T> = Outcome(state: S, result: Result<T>)

  type Bytes = seq<bv8>

  /** `Number.MAX_SAFE_INTEGER`. */
  const MAX_SAFE: int := 0x1F_FFFF_FFFF_FFFF

  predicate IsSafeInteger(n: int) {
    -MAX_SAFE <= n <= MAX_SAFE
  }

  /**
   * JavaScript's `n + 1` for an integer `-1 <= n <= 2^53`: adding one to 2^53 rounds back
   * to 2^53, because the next representable double is 2^53 + 2.
   */
  function JsSuccessor(n: int): int {
    if n <= MAX_SAFE then n + 1 else n
  }

  function Max(a: int, b: int): int {
    if a < b then b else a
  }

  ghost predicate NoDuplicates<T(!new)>(s: seq<T>) {
    forall i, j :: 0 <= i < j < |s| ==> s[i] != s[j]
  }

  /** The elements of a sequence as a set. */
  function Elements<T>(s: seq<T>): set<T> {
    set x | x in s
  }
}
