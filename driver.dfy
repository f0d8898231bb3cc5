/** The step-until-unchanged loop of the program's entry point, bounded by a
    number of reduction attempts (`fuel`) since the loop diverges on terms
    without a normal form. Printing is replaced by the sequence of terms the
    loop would print. */
module Driver {
  import opened Ast
  import opened Reduction

  /** What the loop prints, and whether it stopped because a reduction
      attempt made no step (`normal`) rather than because fuel ran out. */
  datatype Run = Run(printed: seq<Term>, normal: bool)

  /** The run from `t` allowing at most `fuel` reduction attempts. */
  function Normalize(t: Term, fuel: nat): (r: Run)
    ensures |r.printed| >= 1 && r.printed[0] == t
    ensures r.normal ==> |r.printed| <= fuel
    ensures !r.normal ==> |r.printed| == fuel + 1
    decreases fuel
  {
    if fuel == 0 then Run([t], false)
    else
      var s := Reduce(t);
      if !s.changed then Run([t], true)
      else
        var rest := Normalize(s.term, fuel - 1);
        Run([t] + rest.printed, rest.normal)
  }

  /** Every printed term is the one-step reduct of the term printed before it,
      and a run that stopped on its own stopped at a stuck term. */
  lemma {:induction false} NormalizeFollowsReduce(t: Term, fuel: nat)
    ensures var r := Normalize(t, fuel);
      && (forall i {:trigger Reduce(r.printed[i])} :: 0 <= i < |r.printed| - 1 ==> Reduce(r.printed[i]) == Outcome(r.printed[i + 1], true))
      && (r.normal ==> Stuck(r.printed[|r.printed| - 1]))
    decreases fuel
  {
    if fuel > 0 && Reduce(t).changed {
      var u := Reduce(t).term;
      NormalizeFollowsReduce(u, fuel - 1);
      var r, rest := Normalize(t, fuel), Normalize(u, fuel - 1);
      assert r.printed == [t] + rest.printed;
      forall i | 1 <= i < |r.printed| - 1
        ensures Reduce(r.printed[i]) == Outcome(r.printed[i + 1], true)
      {
        assert r.printed[i] == rest.printed[i - 1];
      }
    }
  }

  /** Unfolds a run whose first reduction attempt makes a step. */
  lemma NormalizeStep(t: Term, fuel: nat)
    requires fuel > 0 && Reduce(t).changed
    ensures Normalize(t, fuel).printed == [t] + Normalize(Reduce(t).term, fuel - 1).printed
    ensures Normalize(t, fuel).normal == Normalize(Reduce(t).term, fuel - 1).normal
  {
  }

  /** The loop itself: print the term, then reduce until a reduction attempt
      reports no step or `fuel` attempts have been made. */
  method Drive(t: Term, fuel: nat) returns (printed: seq<Term>, normal: bool)
    ensures Run(printed, normal) == Normalize(t, fuel)
  {
    var expr := t;
    var left: nat := fuel;
    printed := [t];
    normal := false;
    ghost var earlier: seq<Term> := [];
    while left > 0 && !normal
      invariant printed == earlier + [expr]
      invariant !normal ==> Normalize(t, fuel).printed == earlier + Normalize(expr, left).printed
      invariant !normal ==> Normalize(t, fuel).normal == Normalize(expr, left).normal
      invariant normal ==> Normalize(t, fuel).printed == printed && Normalize(t, fuel).normal
      decreases left
    {
      var step := Reduce(expr);
      ghost var rest := Normalize(expr, left);
      left := left - 1;
      if !step.changed {
        assert rest == Run([expr], true);
        normal := true;
      } else {
        NormalizeStep(expr, left + 1);
        earlier := printed;
        expr := step.term;
        printed := printed + [expr];
      }
    }
    assert !normal ==> Normalize(expr, left) == Run([expr], false);
  }

  const I: Term := Abt("x", Var("x"))
  const True: Term := Abt("t", Abt("f", Var("t")))
  /** `((\t. \f. t) ((\x. x) a)) b`, the term the program reduces. */
  const Example: Term := App(App(True, App(I, Var("a"))), Var("b"))

  /** The program prints four terms and stops at the variable `a`. */
  lemma {:induction false} ExampleRun(fuel: nat)
    requires fuel >= 4
    ensures Normalize(Example, fuel)
         == Run([Example,
                 App(Abt("f", App(I, Var("a"))), Var("b")),
                 App(I, Var("a")),
                 Var("a")], true)
  {
    var t1 := App(Abt("f", App(I, Var("a"))), Var("b"));
    var t2 := App(I, Var("a"));
    assert Reduce(Example) == Outcome(t1, true);
    assert Reduce(t1) == Outcome(t2, true);
    assert Reduce(t2) == Outcome(Var("a"), true);
    assert Normalize(Var("a"), fuel - 3) == Run([Var("a")], true);
    assert Normalize(t2, fuel - 2) == Run([t2, Var("a")], true);
    assert Normalize(t1, fuel - 1) == Run([t1, t2, Var("a")], true);
  }

  /** `\x. x x` */
  const SelfApply: Term := Abt("x", App(Var("x"), Var("x")))
  /** `(\x. x x) (\x. x x)` */
  const Omega: Term := App(SelfApply, SelfApply)

  /** The self-application steps to a structurally equal term, and the step
      counts as a change, so the loop never stops on it: every bounded run
      prints `Omega` once per attempt plus once at the start. */
  lemma {:induction false} OmegaDiverges(fuel: nat)
    ensures Normalize(Omega, fuel) == Run(seq(fuel + 1, _ => Omega), false)
  {
    assert Reduce(Omega) == Outcome(Omega, true);
    if fuel > 0 {
      OmegaDiverges(fuel - 1);
      assert [Omega] + seq(fuel, _ => Omega) == seq(fuel + 1, _ => Omega);
    }
  }
}
