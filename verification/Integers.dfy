/** The kernel's `Integer`, whose operations panic outside their domain. */
module Integers {
  const PRECISION := 100000000

  function NewInteger(x: nat): nat { x * PRECISION }

  function Add(x: int, y: int): int
    requires x >= 0 && y > 0
  {
    x + y
  }

  function Sub(x: int, y: int): int
    requires x >= 0 && y > 0 && x >= y
  {
    x - y
  }

  function Mul(x: int, y: int): int
    requires x >= 0 && y > 0
  {
    x * y
  }

  function Div(x: int, y: int): int
    requires x >= 0 && y > 0
  {
    x / y
  }
}
