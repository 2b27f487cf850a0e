/** Three-valued logic: None is NULL. */
module SqlLogic {
  import opened Common

  type Tri = Option<bool>

  function And3(a: Tri, b: Tri): Tri {
    if a == Some(false) || b == Some(false) then Some(false)
    else if a.None? || b.None? then None
    else Some(true)
  }

  function Or3(a: Tri, b: Tri): Tri {
    if a == Some(true) || b == Some(true) then Some(true)
    else if a.None? || b.None? then None
    else Some(false)
  }

  function Not3(a: Tri): Tri {
    if a.None? then None else Some(!a.value)
  }

  /** `x = y` on one nullable side. */
  function Eq3<T(==)>(x: Option<T>, y: T): Tri {
    if x.None? then None else Some(x.value == y)
  }

  function In3<T(==)>(x: Option<T>, list: seq<T>): Tri {
    if x.None? then None else Some(x.value in list)
  }

  /** WHERE and WHEN take only what is known to be true. */
  predicate Holds(a: Tri) {
    a == Some(true)
  }
}
