# lamb: a leftmost reducer for the untyped lambda calculus, in Dafny

This project models the core of `lamb`, a small C program that builds a
lambda term, reduces it one step at a time and prints every intermediate term
until a reduction attempt makes no step. The model has four modules:

- `Ast` (`ast.dfy`): the term type `Term = Var | Abt | App`. The C
  constructors `var`, `abt` and `app` only allocate a node and fill its fields,
  so they are the datatype constructors. The module also defines `Occurs`
  (a name occurs as a variable) and `Binders` (the names bound by abstractions).
- `Substitution` (`substitution.dfy`): `Substitute(param, body, val)` as the
  program writes it. It replaces every `Var(param)` by `val`. It descends into
  every abstraction, even one that rebinds `param`, and it never renames a
  bound variable.
- `Reduction` (`reduction.dfy`): `Reduce`, one leftmost step. The C code tells
  "a step was made" from "nothing changed" by comparing node addresses. Here
  `Reduce` returns an `Outcome(term, changed)` whose flag carries that answer.
  The flag is true exactly when the C function returns a different node. A
  beta step in C always yields a fresh node, the argument, or a strict
  subterm of the function, and none of these is the application node itself.
  `Stuck` describes the terms on which no step is made. Evaluation contexts
  (`Context`, `Plug`, `Leftmost`) give an independent description of the
  step: it contracts the redex at the leftmost hole reachable through
  applications only.
- `Driver` (`driver.dfy`): the step-until-unchanged loop of `main`. The loop
  has no bound in C. Here it is bounded by `fuel`, the number of reduction
  attempts allowed. `Normalize` is the run as a function. `Drive` is the loop
  as a method, proved equal to it. The printed output is represented by the
  sequence of terms the loop would print.

Three behaviours of the code are easy to misread, and the model follows the
code in each:
- Substitution enters an abstraction that rebinds `param` and never renames a
  binder (main.c:95-98). `NoShadowingNoRenaming` shows both consequences.
- An abstraction never steps, because the step on its body is computed and
  thrown away (main.c:112-117). `AbstractionBodyIsNotReduced` shows this.
- The loop stops on node identity (main.c:155), not on structural equality,
  so `(\x. x x) (\x. x x)`, which reduces to an equal term, is never taken
  for a fixpoint (`OmegaDiverges`).

## Model

| member | source | states |
|---|---|---|
| Substitution.Substitute | main.c:87-105 | if `param` does not occur in `body`, the result is `body`; if `param` does not occur in `val`, it does not occur in the result |
| Substitution.SubstituteOccurs | main.c:87-105 | a name `y` occurs in the result iff either `y` differs from `param` and occurs in `body`, or `param` occurs in `body` and `y` occurs in `val` |
| Substitution.SubstituteBinders | main.c:95-98 | every parameter name of `body` is still bound in the result; the only added binders are those of `val`, and they are added exactly when `param` occurs in `body` |
| Substitution.ShadowingBinderIsEntered | main.c:95-98 | an abstraction that rebinds `param` is rebuilt with the same parameter, and the substitution continues inside its body |
| Substitution.NoShadowingNoRenaming | main.c:89-98 | `\x. x` with `x := z` gives `\x. z`, and `\y. x y` with `x := y` gives `\y. y y`: no shadowing stop and no renaming |
| Substitution.SubstituteSelf | main.c:87-105 | substituting `Var(param)` for `param` returns the body unchanged |
| Substitution.SubstituteTwice | main.c:87-105 | substituting `v` then `w` for the same name equals one substitution of `v` with `w` already substituted into it |
| Substitution.SubstituteCommute | main.c:87-105 | substitutions of distinct names `x`, `y` commute when `x` does not occur in the second value, with no condition on binders |
| Reduction.Reduce | main.c:108-140 | a step is reported exactly when the term is not `Stuck`; when no step is reported, the term returned is the input |
| Reduction.RedexOutsideBindersIsNotStuck | main.c:119-136 | any term with a redex reachable through applications only makes a step; in particular an application whose function is an abstraction always steps |
| Reduction.ReduceContractsLeftmostRedex | main.c:119-136 | for a redex in a leftmost hole (function positions first, an argument only after a stuck non-abstraction function), the step replaces that redex by its substituted body and leaves the rest of the term unchanged |
| Reduction.StepHasLeftmostRedex | main.c:108-140 | every step the reducer makes contracts a redex in a leftmost hole, and never one inside an abstraction |
| Reduction.AbstractionBodyIsNotReduced | main.c:112-118 | `\y. (\x. x) z` makes no step although its body does |
| Driver.Normalize | main.c:151-158 | the run prints the start term first; a run that stopped on its own made at most `fuel` attempts; a run out of fuel printed exactly `fuel + 1` terms |
| Driver.NormalizeFollowsReduce | main.c:151-158 | each printed term is the reduct of the term printed before it (with a step reported), and a run that stopped on its own ends at a stuck term |
| Driver.Drive | main.c:151-158 | the bounded loop prints exactly the terms of `Normalize` and reports the same stopping reason |
| Driver.ExampleRun | main.c:143-158 | from `((\t. \f. t) ((\x. x) a)) b`, with at least four attempts, the program prints that term, `(\f. (\x. x) a) b`, `(\x. x) a` and `a`, then stops on its own (as terms; the printed text is not modelled) |
| Driver.OmegaDiverges | main.c:151-158 | `(\x. x x) (\x. x x)` steps to itself with a step reported, so every bounded run prints it `fuel + 1` times and never stops on its own |

## Left out

- Printing (`print_term_rec`, `print_term`, main.c:59-82) is console output. The driver records the printed terms as a sequence instead.
- `malloc`, `strdup` and the `assert(term != NULL)` checks (main.c:32-56) are memory management. Datatype constructors cannot fail.
- The `default: assert(!"Term_Type")` branches (main.c:74-75, 102-103, 137-138) cannot be reached with a three-constructor datatype.
- Node identity and the sharing of `val` in several positions (main.c:91, 114, 121, 131, 155) are not modelled. Identity is replaced by the `changed` flag of `Outcome`. Sharing is invisible with immutable values.
- The unbounded `for (;;)` loop (main.c:152) diverges on terms without a normal form. Only the fuel-bounded loop is modelled.
- The step on an abstraction's body (main.c:113) is computed and discarded in C. It has no effect, so the model does not compute it.
- The commented-out alternative start terms in `main` (main.c:144, 146-147) are not modelled.
