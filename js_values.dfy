/** Column values as JavaScript sees them when a SQLite row is read into an
    object, and the `v || default` idiom the post assembler applies to them.

    A column is `None` when SQLite returned NULL. JavaScript truthiness then
    differs by column type: an integer is falsy when 0, a string when empty,
    a real number when 0 (NaN and negative zero are not modelled). */
module JsValues {

  datatype Option<+T> = None | Some(value: T)

  /** Truthiness of an INTEGER column. */
  predicate IntTruthy(v: Option<int>) {
    v.Some? && v.value != 0
  }

  /** Truthiness of a TEXT column. */
  predicate TextTruthy(v: Option<string>) {
    v.Some? && v.value != ""
  }

  /** Truthiness of a REAL column. */
  predicate RealTruthy(v: Option<real>) {
    v.Some? && v.value != 0.0
  }

  /** `v || d` on an INTEGER column with an integer default. */
  function IntOr(v: Option<int>, d: int): int {
    if IntTruthy(v) then v.value else d
  }

  /** `v || d` on a TEXT column with a string default. */
  function TextOr(v: Option<string>, d: string): string {
    if TextTruthy(v) then v.value else d
  }

  /** `v || null` on a REAL column: a falsy number becomes null. */
  function RealOrNull(v: Option<real>): Option<real> {
    if RealTruthy(v) then v else None
  }
}
