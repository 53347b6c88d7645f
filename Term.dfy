/**
 * The term algebra of the tableau prover: formula nodes, construction check, deep copy,
 * structural equality, substitution, the post-parse variable pass and unification.
 *
 * Terms are modelled as immutable values. The source rewrites argument arrays in place;
 * the methods below keep its loops but return the rewritten value.
 */
module Terms {
  import opened Wrappers

  // The operator tags the engine switches on.
  const PREDICATE: string := "predicate"
  const VAR: string := "var"
  const NOT: string := "not"
  const AND: string := "and"
  const OR: string := "or"
  const IMP: string := "imp"
  const FORALL: string := "forall"
  const EXISTS: string := "exists"
  /** A Skolem function term (also what the parser produces for constants). */
  const SKOLEM: string := "term"

  /** A formula or term node: operator tag, optional name, optional bound name, arguments. */
  datatype Term = Term(op: string, name: Option<string>, bind: Option<string>, args: seq<Term>)

  /** A finite map from variable names to replacement terms. */
  type Substitution = map<string, Term>

  datatype TermError = UndefinedArgument

  /** A variable named `n`: no bound name and no arguments. */
  function VarTerm(n: string): Term
  {
    Term(VAR, Some(n), None, [])
  }

  /** The operators whose arguments substitution always rewrites. */
  predicate IsStructural(op: string)
  {
    op == NOT || op == IMP || op == OR || op == AND || op == PREDICATE
  }

  predicate IsQuantifier(op: string)
  {
    op == EXISTS || op == FORALL
  }

  /** The name a Skolem node is looked up by in the bound-name stack: `""` when it has none. */
  function NameOrEmpty(name: Option<string>): string
  {
    if name.Some? then name.value else ""
  }

  // ---------------------------------------------------------------------------------------
  // Construction

  /**
   * The constructor: every argument slot must be present (an absent slot is `None`);
   * otherwise the fields are stored as given.
   */
  method NewTerm(op: string, name: Option<string>, bind: Option<string>, args: seq<Option<Term>>)
    returns (r: Result<Term, TermError>)
    ensures r.Failure? <==> exists i :: 0 <= i < |args| && args[i].None?
    ensures r.Failure? ==> r.error == UndefinedArgument
    ensures r.Success? ==>
      r.value.op == op && r.value.name == name && r.value.bind == bind &&
      |r.value.args| == |args| &&
      forall i :: 0 <= i < |args| ==> args[i] == Some(r.value.args[i])
  {
    for k := 0 to |args|
      invariant forall i :: 0 <= i < k ==> args[i].Some?
    {
      if args[k].None? {
        return Failure(UndefinedArgument);
      }
    }
    r := Success(Term(op, name, bind, seq(|args|, i requires 0 <= i < |args| => args[i].value)));
  }

  // ---------------------------------------------------------------------------------------
  // Deep copy and structural equality

  /** Deep copy: a freshly built argument list at every level, equal to the original. */
  method CopyTerm(t: Term) returns (c: Term)
    ensures c == t
    decreases t
  {
    var args: seq<Term> := [];
    for k := 0 to |t.args|
      invariant args == t.args[..k]
    {
      var a := CopyTerm(t.args[k]);
      args := args + [a];
    }
    c := Term(t.op, t.name, t.bind, args);
  }

  /** The height of a term; the measure for recursion that alternates between two terms. */
  function Height(t: Term): (h: nat)
    ensures forall i :: 0 <= i < |t.args| ==> Height(t.args[i]) < h
    decreases t, 1
  {
    1 + MaxHeight(t.args)
  }

  function MaxHeight(ts: seq<Term>): (m: nat)
    ensures forall i :: 0 <= i < |ts| ==> Height(ts[i]) <= m
    decreases ts, 0
  {
    if ts == [] then 0
    else
      var h, rest := Height(ts[0]), MaxHeight(ts[1..]);
      assert forall i :: 1 <= i < |ts| ==> ts[i] == ts[1..][i - 1];
      if h < rest then rest else h
  }

  /**
   * Structural equality: same bind, name, op and arity, and pairwise-equal arguments in
   * order (each argument of `other` is asked about the matching argument of `t`).
   * Comparing with null is always false.
   */
  method Eq(t: Term, other: Option<Term>) returns (b: bool)
    ensures b <==> other == Some(t)
    decreases Height(t) + (if other.Some? then Height(other.value) else 0)
  {
    if other.None? {
      return false;
    }
    var o := other.value;
    if o.bind != t.bind || o.name != t.name || o.op != t.op || |o.args| != |t.args| {
      return false;
    }
    for i := 0 to |o.args|
      invariant o.args[..i] == t.args[..i]
    {
      var same := Eq(o.args[i], Some(t.args[i]));
      if !same {
        return false;
      }
    }
    assert o.args == o.args[..|o.args|] == t.args[..|t.args|] == t.args;
    return true;
  }

  // ---------------------------------------------------------------------------------------
  // Substitution

  /**
   * What `substituteAll` computes. Connectives and predicates rewrite every argument; a
   * variable is replaced when its name is a key; a quantifier rewrites its body only when
   * the map DOES contain its own bound name; every other operator (Skolem terms included)
   * is left untouched.
   */
  function Subst(t: Term, s: Substitution): Term
    decreases t
  {
    if IsStructural(t.op) then
      Term(t.op, t.name, t.bind, seq(|t.args|, i requires 0 <= i < |t.args| => Subst(t.args[i], s)))
    else if t.op == VAR then
      if t.name.Some? && t.name.value in s then s[t.name.value] else t
    else if IsQuantifier(t.op) && t.bind.Some? && t.bind.value in s then
      Term(t.op, t.name, t.bind, seq(|t.args|, i requires 0 <= i < |t.args| => Subst(t.args[i], s)))
    else
      t
  }

  /** `substituteAll`: the source's switch, with the argument loop of its two rewriting cases. */
  method SubstituteAll(t: Term, s: Substitution) returns (r: Term)
    ensures r == Subst(t, s)
    decreases t, 1
  {
    if IsStructural(t.op) {
      var args := SubstituteArgs(t, s);
      r := Term(t.op, t.name, t.bind, args);
    } else if t.op == VAR {
      if t.name.Some? && t.name.value in s {
        r := s[t.name.value];
      } else {
        r := t;
      }
    } else if IsQuantifier(t.op) {
      r := t;
      if t.bind.Some? && t.bind.value in s {
        var args := SubstituteArgs(t, s);
        r := Term(t.op, t.name, t.bind, args);
      }
    } else {
      r := t;
    }
  }

  /** Substitutes into each argument in turn, keeping the argument positions. */
  method SubstituteArgs(t: Term, s: Substitution) returns (args: seq<Term>)
    ensures |args| == |t.args|
    ensures forall i :: 0 <= i < |args| ==> args[i] == Subst(t.args[i], s)
    decreases t, 0
  {
    args := t.args;
    for k := 0 to |args|
      invariant |args| == |t.args|
      invariant forall i :: 0 <= i < k ==> args[i] == Subst(t.args[i], s)
    {
      var a := SubstituteAll(t.args[k], s);
      args := args[k := a];
    }
  }

  /** `substitute(bounded, arg)`: substitution by the one-entry map {bounded -> arg}. */
  method Substitute(t: Term, bounded: string, arg: Term) returns (r: Term)
    ensures r == Subst(t, map[bounded := arg])
  {
    r := SubstituteAll(t, map[bounded := arg]);
  }

  /** `substituteVar(bounded, n)`: substitution of the variable named `n` for `bounded`. */
  method SubstituteVar(t: Term, bounded: string, n: string) returns (r: Term)
    ensures r == Subst(t, map[bounded := VarTerm(n)])
  {
    r := Substitute(t, bounded, VarTerm(n));
  }

  /** The names of all variable nodes anywhere in a term. */
  function VarNames(t: Term): set<string>
    decreases t
  {
    (if t.op == VAR && t.name.Some? then {t.name.value} else {}) +
    (set i, x | 0 <= i < |t.args| && x in VarNames(t.args[i]) :: x)
  }

  /** A substitution whose replacement terms mention none of its own keys. */
  predicate KeysNotInValues(s: Substitution)
  {
    forall k :: k in s ==> VarNames(s[k]) !! s.Keys
  }

  /** Substitution changes nothing when no key names a variable of the term. */
  lemma {:induction false} SubstIdentity(t: Term, s: Substitution)
    requires VarNames(t) !! s.Keys
    ensures Subst(t, s) == t
    decreases t
  {
    forall i | 0 <= i < |t.args|
      ensures Subst(t.args[i], s) == t.args[i]
    {
      forall x | x in VarNames(t.args[i]) ensures x in VarNames(t) {
      }
      SubstIdentity(t.args[i], s);
    }
    if IsStructural(t.op) || (IsQuantifier(t.op) && t.bind.Some? && t.bind.value in s) {
      assert seq(|t.args|, i requires 0 <= i < |t.args| => Subst(t.args[i], s)) == t.args;
    }
  }

  /** The empty substitution yields a term equal to its input. */
  lemma {:induction false} SubstEmpty(t: Term)
    ensures Subst(t, map[]) == t
  {
    SubstIdentity(t, map[]);
  }

  /** Applying a substitution twice is applying it once, when its values mention no key. */
  lemma {:induction false} SubstIdempotent(t: Term, s: Substitution)
    requires KeysNotInValues(s)
    ensures Subst(Subst(t, s), s) == Subst(t, s)
    decreases t
  {
    var r := Subst(t, s);
    if t.op == VAR {
      if t.name.Some? && t.name.value in s {
        SubstIdentity(s[t.name.value], s);
      }
    } else if IsStructural(t.op) || (IsQuantifier(t.op) && t.bind.Some? && t.bind.value in s) {
      forall i | 0 <= i < |t.args|
        ensures Subst(r.args[i], s) == r.args[i]
      {
        SubstIdempotent(t.args[i], s);
      }
      assert seq(|r.args|, i requires 0 <= i < |r.args| => Subst(r.args[i], s)) == r.args;
    }
  }

  // ---------------------------------------------------------------------------------------
  // Unification

  /** Two terms unify under a substitution when their substituted forms are equal. */
  predicate Unifies(t: Term, s: Term, subst: Substitution)
  {
    Subst(t, subst) == Subst(s, subst)
  }

  /** `unify`: substitute into a copy of each term and compare the copies. */
  method Unify(t: Term, s: Term, subst: Substitution) returns (b: bool)
    ensures b <==> Unifies(t, s, subst)
  {
    var c1 := CopyTerm(t);
    var a := SubstituteAll(c1, subst);
    var c2 := CopyTerm(s);
    var b2 := SubstituteAll(c2, subst);
    b := Eq(a, Some(b2));
  }

  /** Under the empty substitution, unification is exactly structural equality. */
  lemma UnifyEmptyIffEqual(t: Term, s: Term)
    ensures Unifies(t, s, map[]) <==> t == s
  {
    SubstEmpty(t);
    SubstEmpty(s);
  }

  /** A term unifies with its own instance under a substitution whose values mention no key. */
  lemma UnifyWithInstance(t: Term, subst: Substitution)
    requires KeysNotInValues(subst)
    ensures Unifies(t, Subst(t, subst), subst)
  {
    SubstIdempotent(t, subst);
  }

  // ---------------------------------------------------------------------------------------
  // The post-parse variable pass

  /**
   * What `rewriteVars(vars)` computes. Connectives, predicates and variables rewrite their
   * arguments under the same stack. A 0-ary Skolem term whose name is on the stack becomes
   * a variable; it then falls through to the quantifier case, which (for quantifiers and
   * Skolem terms alike) rewrites the arguments with the bound name pushed, when there is one.
   */
  function Rewrite(t: Term, vars: seq<string>): Term
    decreases t
  {
    if IsStructural(t.op) || t.op == VAR then
      Term(t.op, t.name, t.bind, seq(|t.args|, i requires 0 <= i < |t.args| => Rewrite(t.args[i], vars)))
    else if t.op == SKOLEM || IsQuantifier(t.op) then
      var op := if t.op == SKOLEM && |t.args| == 0 && NameOrEmpty(t.name) in vars then VAR else t.op;
      if t.bind.Some? then
        Term(op, t.name, t.bind,
             seq(|t.args|, i requires 0 <= i < |t.args| => Rewrite(t.args[i], vars + [t.bind.value])))
      else
        Term(op, t.name, t.bind, t.args)
    else
      t
  }

  /**
   * `rewriteVars`: the source's switch over a shared stack of bound names, which is handed
   * back (`stack`) so that the push/pop discipline is visible: it comes back as it went in.
   */
  method RewriteVars(t: Term, vars: seq<string>) returns (r: Term, stack: seq<string>)
    ensures r == Rewrite(t, vars)
    ensures stack == vars
    decreases t, 1
  {
    stack := vars;
    r := t;
    if IsStructural(t.op) || t.op == VAR {
      var args;
      args, stack := RewriteArgs(t, stack);
      r := Term(t.op, t.name, t.bind, args);
    } else if t.op == SKOLEM || IsQuantifier(t.op) {
      if t.op == SKOLEM && |t.args| == 0 && NameOrEmpty(t.name) in stack {
        r := Term(VAR, t.name, t.bind, t.args);
      }
      if t.bind.Some? {
        stack := stack + [t.bind.value];
        var args;
        args, stack := RewriteArgs(t, stack);
        stack := stack[..|stack| - 1];
        r := Term(r.op, t.name, t.bind, args);
      }
    }
  }

  /** Runs the variable pass over each argument in turn, threading the stack through. */
  method RewriteArgs(t: Term, vars: seq<string>) returns (args: seq<Term>, stack: seq<string>)
    ensures |args| == |t.args|
    ensures forall i :: 0 <= i < |args| ==> args[i] == Rewrite(t.args[i], vars)
    ensures stack == vars
    decreases t, 0
  {
    args, stack := t.args, vars;
    for k := 0 to |args|
      invariant |args| == |t.args| && stack == vars
      invariant forall i :: 0 <= i < k ==> args[i] == Rewrite(t.args[i], vars)
    {
      var a;
      a, stack := RewriteVars(t.args[k], stack);
      args := args[k := a];
    }
  }

  /** `parseTerm` after the parser: the variable pass run with an empty stack. */
  method ParseTerm(parsed: Term) returns (r: Term)
    ensures r == Rewrite(parsed, [])
  {
    var stack;
    r, stack := RewriteVars(parsed, []);
  }

  /**
   * `b` differs from `a` at most by 0-ary Skolem nodes turned into variables: every name,
   * bound name and arity is kept.
   */
  predicate Retagged(a: Term, b: Term)
    decreases a
  {
    a.name == b.name && a.bind == b.bind && |a.args| == |b.args| &&
    (a.op == b.op || (a.op == SKOLEM && b.op == VAR && a.args == [])) &&
    forall i :: 0 <= i < |a.args| ==> Retagged(a.args[i], b.args[i])
  }

  /** The variable pass only re-tags 0-ary Skolem nodes as variables. */
  lemma {:induction false} RewriteRetags(t: Term, vars: seq<string>)
    ensures Retagged(t, Rewrite(t, vars))
    decreases t
  {
    var r := Rewrite(t, vars);
    forall i | 0 <= i < |t.args|
      ensures Retagged(t.args[i], r.args[i])
    {
      if IsStructural(t.op) || t.op == VAR {
        RewriteRetags(t.args[i], vars);
      } else if (t.op == SKOLEM || IsQuantifier(t.op)) && t.bind.Some? {
        RewriteRetags(t.args[i], vars + [t.bind.value]);
      } else {
        RetaggedRefl(t.args[i]);
      }
    }
  }

  lemma {:induction false} RetaggedRefl(t: Term)
    ensures Retagged(t, t)
    decreases t
  {
    forall i | 0 <= i < |t.args| ensures Retagged(t.args[i], t.args[i]) {
      RetaggedRefl(t.args[i]);
    }
  }

  /** Running the variable pass twice under the same stack is running it once. */
  lemma {:induction false} RewriteIdempotent(t: Term, vars: seq<string>)
    ensures Rewrite(Rewrite(t, vars), vars) == Rewrite(t, vars)
    decreases t
  {
    var r := Rewrite(t, vars);
    if IsStructural(t.op) || t.op == VAR {
      forall i | 0 <= i < |t.args| ensures Rewrite(r.args[i], vars) == r.args[i] {
        RewriteIdempotent(t.args[i], vars);
      }
      assert seq(|r.args|, i requires 0 <= i < |r.args| => Rewrite(r.args[i], vars)) == r.args;
    } else if (t.op == SKOLEM || IsQuantifier(t.op)) && t.bind.Some? && r.op != VAR {
      var inner := vars + [t.bind.value];
      forall i | 0 <= i < |t.args| ensures Rewrite(r.args[i], inner) == r.args[i] {
        RewriteIdempotent(t.args[i], inner);
      }
      assert seq(|r.args|, i requires 0 <= i < |r.args| => Rewrite(r.args[i], inner)) == r.args;
    }
  }

  /** The stack is only ever asked for membership: stacks with the same names give the same result. */
  lemma {:induction false} RewriteDependsOnNamesOnly(t: Term, v1: seq<string>, v2: seq<string>)
    requires forall x :: x in v1 <==> x in v2
    ensures Rewrite(t, v1) == Rewrite(t, v2)
    decreases t
  {
    if IsStructural(t.op) || t.op == VAR {
      forall i | 0 <= i < |t.args| ensures Rewrite(t.args[i], v1) == Rewrite(t.args[i], v2) {
        RewriteDependsOnNamesOnly(t.args[i], v1, v2);
      }
    } else if (t.op == SKOLEM || IsQuantifier(t.op)) && t.bind.Some? {
      var b := t.bind.value;
      forall i | 0 <= i < |t.args| ensures Rewrite(t.args[i], v1 + [b]) == Rewrite(t.args[i], v2 + [b]) {
        RewriteDependsOnNamesOnly(t.args[i], v1 + [b], v2 + [b]);
      }
    }
  }
}
