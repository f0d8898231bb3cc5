/** Substitution exactly as the reducer performs it: every `Var(param)` in the
    body is replaced by the value, the walk descends into every abstraction
    (including one that rebinds `param`), and bound names are never renamed. */
module Substitution {
  import opened Ast

  /** Replaces every occurrence of the variable `param` in `body` by `val`. */
  function Substitute(param: string, body: Term, val: Term): (r: Term)
    ensures !Occurs(param, body) ==> r == body
    ensures !Occurs(param, val) ==> !Occurs(param, r)
  {
    match body
    case Var(n) => if n == param then val else body
    case Abt(p, b) => Abt(p, Substitute(param, b, val))
    case App(f, a) => App(Substitute(param, f, val), Substitute(param, a, val))
  }

  /** The variables of the result: every variable of `body` other than
      `param`, plus, when `param` occurs in `body`, every variable of `val`. */
  lemma {:induction false} SubstituteOccurs(param: string, body: Term, val: Term, y: string)
    ensures Occurs(y, Substitute(param, body, val))
        <==> (y != param && Occurs(y, body)) || (Occurs(param, body) && Occurs(y, val))
  {
    match body
    case Var(_) =>
    case Abt(_, b) => SubstituteOccurs(param, b, val, y);
    case App(f, a) =>
      SubstituteOccurs(param, f, val, y);
      SubstituteOccurs(param, a, val, y);
  }

  /** Abstractions of `body` all survive with their parameter names; the only
      new binders are those of the copies of `val`. */
  lemma {:induction false} SubstituteBinders(param: string, body: Term, val: Term)
    ensures Binders(body) <= Binders(Substitute(param, body, val)) <= Binders(body) + Binders(val)
    ensures Occurs(param, body) ==> Binders(Substitute(param, body, val)) == Binders(body) + Binders(val)
  {
    match body
    case Var(_) =>
    case Abt(_, b) => SubstituteBinders(param, b, val);
    case App(f, a) =>
      SubstituteBinders(param, f, val);
      SubstituteBinders(param, a, val);
  }

  /** An abstraction that rebinds `param` does not stop the substitution. */
  lemma ShadowingBinderIsEntered(param: string, body: Term, val: Term)
    ensures Substitute(param, Abt(param, body), val) == Abt(param, Substitute(param, body, val))
  {
  }

  /** Consequences of the missing shadowing rule and the missing renaming:
      `\x. x` with `x := z` becomes `\x. z`, and `\y. x y` with `x := y`
      becomes `\y. y y`, capturing the free `y`. */
  lemma NoShadowingNoRenaming()
    ensures Substitute("x", Abt("x", Var("x")), Var("z")) == Abt("x", Var("z"))
    ensures Substitute("x", Abt("y", App(Var("x"), Var("y"))), Var("y"))
         == Abt("y", App(Var("y"), Var("y")))
  {
  }

  /** Substituting a variable by itself changes nothing. */
  lemma {:induction false} SubstituteSelf(param: string, body: Term)
    ensures Substitute(param, body, Var(param)) == body
  {
    match body
    case Var(_) =>
    case Abt(_, b) => SubstituteSelf(param, b);
    case App(f, a) =>
      SubstituteSelf(param, f);
      SubstituteSelf(param, a);
  }

  /** Substituting the same variable twice is substituting once with the
      composed value. */
  lemma {:induction false} SubstituteTwice(param: string, body: Term, v: Term, w: Term)
    ensures Substitute(param, Substitute(param, body, v), w)
         == Substitute(param, body, Substitute(param, v, w))
  {
    match body
    case Var(_) =>
    case Abt(_, b) => SubstituteTwice(param, b, v, w);
    case App(f, a) =>
      SubstituteTwice(param, f, v, w);
      SubstituteTwice(param, a, v, w);
  }

  /** Substitutions of two distinct variables commute, provided the first
      variable does not occur in the second value. Because binders are never
      consulted, no condition on the binders of `body` is needed. */
  lemma {:induction false} SubstituteCommute(x: string, y: string, body: Term, v: Term, w: Term)
    requires x != y && !Occurs(x, w)
    ensures Substitute(y, Substitute(x, body, v), w)
         == Substitute(x, Substitute(y, body, w), Substitute(y, v, w))
  {
    match body
    case Var(_) =>
    case Abt(_, b) => SubstituteCommute(x, y, b, v, w);
    case App(f, a) =>
      SubstituteCommute(x, y, f, v, w);
      SubstituteCommute(x, y, a, v, w);
  }
}
