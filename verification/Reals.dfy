/** The real arithmetic the image and matrix models share. */
module Reals {

  function Min(a: real, b: real): real { if b < a then b else a }

  function Max(a: real, b: real): real { if b > a then b else a }

  function Abs(x: real): real { if x < 0.0 then -x else x }

  function Ceil(x: real): int { -((-x).Floor) }
}
