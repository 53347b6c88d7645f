/** Concrete instances of the engine's behaviour, worked out on small formulas. */
module Scenarios {
  import opened Wrappers
  import opened Terms
  import opened Proof

  function Const(n: string): Term
  {
    Term(SKOLEM, Some(n), None, [])
  }

  function Pred(n: string, args: seq<Term>): Term
  {
    Term(PREDICATE, Some(n), None, args)
  }

  function Forall(x: string, body: Term): Term
  {
    Term(FORALL, None, Some(x), [body])
  }

  /** A name the parser leaves as a constant becomes a variable under its binder, and only there. */
  lemma ParseBindsQuantifiedNames()
    ensures Rewrite(Forall("x", Pred("P", [Const("x"), Const("c")])), []) ==
            Forall("x", Pred("P", [VarTerm("x"), Const("c")]))
    ensures Rewrite(Pred("P", [Const("x")]), []) == Pred("P", [Const("x")])
  {
    var inner := Rewrite(Pred("P", [Const("x"), Const("c")]), ["x"]);
    assert Rewrite(Const("x"), ["x"]) == VarTerm("x");
    assert Rewrite(Const("c"), ["x"]) == Const("c");
    assert inner == Pred("P", [VarTerm("x"), Const("c")]);
    assert [] + ["x"] == ["x"];
    assert Rewrite(Forall("x", Pred("P", [Const("x"), Const("c")])), []).args == [inner];
    assert Rewrite(Const("x"), []) == Const("x");
  }

  /**
   * The quantifier guard is the reverse of shadowing: a body is entered only when the map
   * has the quantifier's own bound name, so `forall y. P(x, y)` keeps its `x` under {x -> X1},
   * while `forall x. P(x)` has its `x` replaced.
   */
  lemma QuantifierGuardReversed()
    ensures Subst(Forall("y", Pred("P", [VarTerm("x"), VarTerm("y")])), map["x" := VarTerm("X1")]) ==
            Forall("y", Pred("P", [VarTerm("x"), VarTerm("y")]))
    ensures Subst(Forall("x", Pred("P", [VarTerm("x")])), map["x" := VarTerm("X1")]) ==
            Forall("x", Pred("P", [VarTerm("X1")]))
  {
    var s := map["x" := VarTerm("X1")];
    assert Subst(VarTerm("x"), s) == VarTerm("X1");
    assert Subst(Pred("P", [VarTerm("x")]), s) == Pred("P", [VarTerm("X1")]);
  }

  /** Substitution does not enter Skolem terms: `P(f1(X1))` is unchanged by {X1 -> c}. */
  lemma SkolemArgumentsUntouched()
    ensures Subst(Pred("P", [Term(SKOLEM, Some("f1"), None, [VarTerm("X1")])]), map["X1" := Const("c")]) ==
            Pred("P", [Term(SKOLEM, Some("f1"), None, [VarTerm("X1")])])
  {
  }

  /** `P(a)` and `P(b)` do not unify under {a -> a}; `P(X1)` and `P(a)` unify under {X1 -> a}. */
  lemma ClosureExamples()
    ensures !Unifies(Pred("P", [VarTerm("a")]), Pred("P", [VarTerm("b")]), map["a" := VarTerm("a")])
    ensures Unifies(Pred("P", [VarTerm("X1")]), Pred("P", [Const("a")]), map["X1" := Const("a")])
  {
    var s := map["a" := VarTerm("a")];
    assert Subst(Pred("P", [VarTerm("b")]), s).args[0] == VarTerm("b");
    assert Subst(Pred("P", [VarTerm("a")]), s).args[0] == VarTerm("a");
    var s2 := map["X1" := Const("a")];
    assert Subst(Pred("P", [VarTerm("X1")]), s2) == Pred("P", [Const("a")]);
    assert Subst(Pred("P", [Const("a")]), s2) == Pred("P", [Const("a")]);
  }

  /**
   * Gamma on `T forall x. P(x)` introduces X1; a goal is appended below that node, and Delta on
   * `F forall y. Q(y)`, given the free variables collected from the goal up to the root, yields
   * `F Q(f2(X1))`: the two rules share one counter.
   */
  method GammaThenDelta()
  {
    var session := new Session();
    var r1 := session.GammaApply(true, Forall("x", Pred("P", [VarTerm("x")])));
    assert DecimalString(1) == "1";
    assert ToUpper("x") == "X";
    assert FreshName("x", 1) == "X1";
    var p := r1.value[0];
    assert p.term == Some(Pred("P", [VarTerm("X1")])) by {
      assert Subst(VarTerm("x"), map["x" := VarTerm("X1")]) == VarTerm("X1");
      assert Subst(Pred("P", [VarTerm("x")]), map["x" := VarTerm("X1")]) == Pred("P", [VarTerm("X1")]);
    }
    assert p.freeVar == Some("X1");

    var goal := p.AppendGoal();
    goal.parent := p;
    var vars := goal.FreeVars([goal, p]);
    assert [goal, p][1..] == [p] && IntroducedVars([p]) == [VarTerm("X1")];
    assert vars == [VarTerm("X1")];

    var r2 := session.DeltaApply(false, Forall("y", Pred("Q", [VarTerm("y")])), vars);
    assert DecimalString(2) == "2";
    var f := Term(SKOLEM, Some("f2"), None, [VarTerm("X1")]);
    assert SkolemName(2) == "f2";
    assert SkolemTerm(2, vars) == f;
    var q := r2.value[0];
    assert q.term == Some(Pred("Q", [f])) by {
      assert Subst(VarTerm("y"), map["y" := f]) == f;
      assert Subst(Pred("Q", [VarTerm("y")]), map["y" := f]) == Pred("Q", [f]);
    }
    assert !q.positive && q.freeVar.None?;
    assert session.counter == 2;
  }
}
