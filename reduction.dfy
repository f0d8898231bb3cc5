/** One leftmost reduction step outside abstractions. The C code detects "a
    step was made" by comparing node addresses; here the step reports it in `changed`. */
module Reduction {
  import opened Ast
  import opened Substitution

  /** The result of one step: the new term and whether a step was made.
      When nothing changed, `term` is the input itself. */
  datatype Outcome = Outcome(term: Term, changed: bool)

  /** Terms on which the reducer makes no step: variables, abstractions
      (whatever their body holds), and applications whose function is stuck
      and not an abstraction and whose argument is stuck. */
  predicate Stuck(t: Term) {
    match t
    case Var(_) => true
    case Abt(_, _) => true
    case App(f, a) => !f.Abt? && Stuck(f) && Stuck(a)
  }

  /** One leftmost step: the function position first, then the beta step when
      the function is an abstraction, then the argument position. An
      abstraction never steps: the C code reduces its body and discards the
      result. */
  function Reduce(t: Term): (r: Outcome)
    ensures r.changed == !Stuck(t)
    ensures !r.changed ==> r.term == t
  {
    match t
    case Var(_) => Outcome(t, false)
    case Abt(_, _) => Outcome(t, false)
    case App(f, a) =>
      var rf := Reduce(f);
      if rf.changed then Outcome(App(rf.term, a), true)
      else if f.Abt? then Outcome(Substitute(f.param, f.body, a), true)
      else
        var ra := Reduce(a);
        if ra.changed then Outcome(App(f, ra.term), true)
        else Outcome(t, false)
  }

  /** A term with one hole, reaching it through applications only. */
  datatype Context =
    | Hole
    | InFunc(ctx: Context, arg: Term)
    | InArg(func: Term, ctx: Context)

  function Plug(c: Context, t: Term): Term {
    match c
    case Hole => t
    case InFunc(c', a) => App(Plug(c', t), a)
    case InArg(f, c') => App(f, Plug(c', t))
  }

  /** The hole is the position the reducer looks at first: the argument of an
      application is entered only when its function is stuck and not an
      abstraction. */
  predicate Leftmost(c: Context) {
    match c
    case Hole => true
    case InFunc(c', _) => Leftmost(c')
    case InArg(f, c') => !f.Abt? && Stuck(f) && Leftmost(c')
  }

  /** A redex that is not under an abstraction makes the term step. */
  lemma {:induction false} RedexOutsideBindersIsNotStuck(c: Context, p: string, b: Term, a: Term)
    ensures !Stuck(Plug(c, App(Abt(p, b), a)))
  {
    match c
    case Hole =>
    case InFunc(c', _) => RedexOutsideBindersIsNotStuck(c', p, b, a);
    case InArg(_, c') => RedexOutsideBindersIsNotStuck(c', p, b, a);
  }

  /** A step contracts the leftmost redex outside abstractions: the redex in
      the leftmost hole is replaced by the substituted body and the rest of
      the term is left as it was. */
  lemma {:induction false} ReduceContractsLeftmostRedex(c: Context, p: string, b: Term, a: Term)
    requires Leftmost(c)
    ensures Reduce(Plug(c, App(Abt(p, b), a))) == Outcome(Plug(c, Substitute(p, b, a)), true)
  {
    match c
    case Hole =>
    case InFunc(c', _) =>
      ReduceContractsLeftmostRedex(c', p, b, a);
    case InArg(_, c') =>
      ReduceContractsLeftmostRedex(c', p, b, a);
  }

  /** Conversely, every step the reducer makes is the contraction of a
      redex in a leftmost hole. */
  lemma {:induction false} StepHasLeftmostRedex(t: Term) returns (c: Context, p: string, b: Term, a: Term)
    requires !Stuck(t)
    ensures Leftmost(c) && t == Plug(c, App(Abt(p, b), a))
    ensures Reduce(t) == Outcome(Plug(c, Substitute(p, b, a)), true)
  {
    match t
    case App(f, x) =>
      if !Stuck(f) {
        var c';
        c', p, b, a := StepHasLeftmostRedex(f);
        c := InFunc(c', x);
      } else if f.Abt? {
        c, p, b, a := Hole, f.param, f.body, x;
      } else {
        var c';
        c', p, b, a := StepHasLeftmostRedex(x);
        c := InArg(f, c');
      }
  }

  /** An abstraction whose body holds a redex does not step. */
  lemma AbstractionBodyIsNotReduced()
    ensures Reduce(App(Abt("x", Var("x")), Var("z"))).changed
    ensures Reduce(Abt("y", App(Abt("x", Var("x")), Var("z"))))
         == Outcome(Abt("y", App(Abt("x", Var("x")), Var("z"))), false)
  {
  }
}
