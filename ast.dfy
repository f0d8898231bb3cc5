/** Lambda terms: variables, abstractions and applications.
    The C constructors `var`, `abt` and `app` only allocate a node and fill
    its fields, so they are the datatype constructors below. */
module Ast {

  datatype Term =
    | Var(name: string)
    | Abt(param: string, body: Term)
    | App(func: Term, arg: Term)

  /** `x` occurs as a variable (a `Var` node) somewhere in `t`.
      Abstraction parameters are not occurrences. */
  predicate Occurs(x: string, t: Term) {
    match t
    case Var(n) => n == x
    case Abt(_, b) => Occurs(x, b)
    case App(f, a) => Occurs(x, f) || Occurs(x, a)
  }

  /** The set of names bound by some abstraction in `t`. */
  function Binders(t: Term): set<string> {
    match t
    case Var(_) => {}
    case Abt(p, b) => {p} + Binders(b)
    case App(f, a) => Binders(f) + Binders(a)
  }
}
