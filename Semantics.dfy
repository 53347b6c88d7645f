/**
 * A reference meaning for the propositional connectives, used to state that the
 * non-quantifier tableau rules are sound and complete: a signed formula holds exactly when
 * all (Alpha) or some (Beta) of its expansions hold.
 */
module Semantics {
  import opened Wrappers
  import opened Terms

  /** Connectives carry the arity they are evaluated at; every other node is an atom. */
  predicate PropFormula(t: Term)
    decreases t
  {
    if t.op == NOT then
      |t.args| == 1 && PropFormula(t.args[0])
    else if t.op == AND || t.op == OR || t.op == IMP then
      |t.args| == 2 && PropFormula(t.args[0]) && PropFormula(t.args[1])
    else
      true
  }

  /** Classical truth of a formula, atoms being decided by `atom`. */
  function Eval(t: Term, atom: Term -> bool): bool
    requires PropFormula(t)
    decreases t
  {
    if t.op == NOT then !Eval(t.args[0], atom)
    else if t.op == AND then Eval(t.args[0], atom) && Eval(t.args[1], atom)
    else if t.op == OR then Eval(t.args[0], atom) || Eval(t.args[1], atom)
    else if t.op == IMP then !Eval(t.args[0], atom) || Eval(t.args[1], atom)
    else atom(t)
  }

  /** A tableau prefix together with an optional formula (absent for a goal). */
  datatype Signed = Signed(positive: bool, term: Option<Term>)

  /** A signed formula holds when its formula is present and evaluates to its sign. */
  predicate Holds(s: Signed, atom: Term -> bool)
  {
    s.term.Some? && PropFormula(s.term.value) && Eval(s.term.value, atom) == s.positive
  }
}
