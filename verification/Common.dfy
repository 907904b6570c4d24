/** Small vocabulary shared by every other module. */
module Common {
  datatype Option<+T> = None | Some(value: T) {
    function GetOr(default: T): T {
      if Some? then value else default
    }

    function Or(other: Option<T>): Option<T> {
      if Some? then this else other
    }
  }

  /** An embedding, over exact arithmetic. */
  type Vector = seq<real>

  function Max(a: real, b: real): real {
    if a >= b then a else b
  }

  function Min(a: real, b: real): real {
    if a <= b then a else b
  }

  function Clamp(x: real, lo: real, hi: real): real {
    Max(lo, Min(x, hi))
  }
}
