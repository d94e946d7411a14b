/**
 Absolute value, minimum and maximum.
 */
module Numbers {

  function Abs(x: real): real {
    if x < 0.0 then -x else x
  }

  function Min(a: int, b: int): int {
    if a < b then a else b
  }

  function Max(a: int, b: int): int {
    if a < b then b else a
  }
}
