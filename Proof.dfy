/**
 * Proof-tree bookkeeping and the four tableau rules.
 *
 * A proof node is a heap object whose fields are set in place. The walks up the parent links
 * are given the chain they will visit as a ghost argument (a finite, null-terminated chain),
 * and the walk down the children is given a ghost set of nodes closed under `children`;
 * both only serve to make termination and the specification expressible.
 */
module Proof {
  import opened Wrappers
  import opened Terms
  import opened Semantics

  class PNode {
    /** The tableau prefix: true for the affirmed prefix, false for the denied one. */
    var positive: bool
    /** The signed formula; goals have none. */
    var term: Option<Term>
    var children: seq<PNode>
    /** Position in the parent's children; -1 when not recorded. */
    var pos: int
    /** The parent node; null for the root. */
    var parent: PNode?
    /** Goals are placeholders for open leaves. */
    var goal: bool
    /** Whether a goal was closed by a substitution. */
    var closed: bool
    var subst: Option<Substitution>
    /** The free variable a Gamma step introduced here. */
    var freeVar: Option<string>

    /** A new node: the flag given first is stored as the sign, as it is. */
    constructor (negated: bool, term: Option<Term>)
      ensures this.positive == negated && this.term == term
      ensures Unlinked() && freeVar.None?
    {
      this.term := term;
      this.positive := negated;
      children := [];
      pos := -1;
      parent := null;
      goal := false;
      closed := false;
      subst := None;
      freeVar := None;
    }

    /** The field values of a new node, apart from its sign, term and free variable. */
    ghost predicate Unlinked()
      reads this
    {
      children == [] && pos == -1 && parent == null && !goal && !closed && subst.None?
    }

    /**
     * `freeVars`: walks from this node to the root and collects a variable term for every
     * node whose `freeVar` is set, nearest first.
     */
    method FreeVars(ghost chain: seq<PNode>) returns (vars: seq<Term>)
      requires IsParentChain(this, chain)
      ensures vars == IntroducedVars(chain)
    {
      var cur: PNode? := this;
      vars := [];
      ghost var i := 0;
      while cur != null
        invariant 0 <= i <= |chain|
        invariant cur == (if i < |chain| then chain[i] else null)
        invariant vars == IntroducedVars(chain[..i])
        decreases |chain| - i
      {
        if cur.freeVar.Some? {
          vars := vars + [VarTerm(cur.freeVar.value)];
        }
        assert chain[..i + 1] == chain[..i] + [chain[i]];
        IntroducedVarsAppend(chain[..i], [chain[i]]);
        cur := cur.parent;
        i := i + 1;
      }
      assert chain[..i] == chain;
    }

    /** `appendGoal`: adds one goal placeholder at the end of the children and returns it. */
    method AppendGoal() returns (g: PNode)
      modifies this`children
      ensures fresh(g)
      ensures children == old(children) + [g]
      ensures g.goal && g.term.None? && !g.positive
      ensures g.parent == null && g.pos == -1 && g.children == [] && !g.closed
      ensures g.subst.None? && g.freeVar.None?
    {
      g := new PNode(false, None);
      g.goal := true;
      children := children + [g];
    }

    /**
     * `allChildren`: a depth-first walk with an explicit stack and a found-list; returns this
     * node first and then every node reachable through `children`, each exactly once.
     */
    method AllChildren(ghost nodes: set<PNode>) returns (found: seq<PNode>)
      requires this in nodes && ClosedUnderChildren(nodes)
      ensures |found| > 0 && found[0] == this
      ensures forall i, j :: 0 <= i < j < |found| ==> found[i] != found[j]
      ensures forall n :: n in found <==> Reachable(this, n, nodes)
    {
      var queue := [this];
      found := [];
      ghost var seen: set<PNode> := {};
      assert this in Descendants(this, nodes, 0);
      while |queue| != 0
        invariant forall n :: n in seen <==> n in found
        invariant seen <= nodes
        invariant forall n :: n in queue ==> n in nodes
        invariant forall i, j :: 0 <= i < j < |found| ==> found[i] != found[j]
        invariant |found| == 0 ==> queue == [this]
        invariant |found| > 0 ==> found[0] == this
        invariant forall n, c :: n in found && c in n.children ==> c in found || c in queue
        invariant forall n :: n in found ==> Reachable(this, n, nodes)
        invariant forall n :: n in queue ==> Reachable(this, n, nodes)
        decreases nodes - seen, |queue|
      {
        var cur := queue[|queue| - 1];
        queue := queue[..|queue| - 1];
        if cur in found {
          continue;
        }
        found := found + [cur];
        seen := seen + {cur};
        forall c | c in cur.children
          ensures Reachable(this, c, nodes)
        {
          ReachableStep(this, cur, c, nodes);
        }
        queue := queue + cur.children;
      }
      forall n | Reachable(this, n, nodes)
        ensures n in found
      {
        var k: nat :| n in Descendants(this, nodes, k);
        DescendantsStayIn(this, nodes, seen, k);
      }
    }

    /**
     * `parents`: the chain [this, parent, ..., root] obtained by following `parent` until null.
     */
    method Parents(ghost chain: seq<PNode>) returns (p: seq<PNode>)
      requires IsParentChain(this, chain)
      ensures p == chain
      ensures |p| > 0 && p[0] == this && p[|p| - 1].parent == null
      ensures forall i :: 0 <= i < |p| - 1 ==> p[i + 1] == p[i].parent
    {
      p := [];
      var cur: PNode? := this;
      ghost var i := 0;
      while cur != null
        invariant 0 <= i <= |chain|
        invariant cur == (if i < |chain| then chain[i] else null)
        invariant p == chain[..i]
        decreases |chain| - i
      {
        p := p + [cur];
        cur := cur.parent;
        i := i + 1;
      }
      assert chain[..i] == chain;
    }
  }

  // ---------------------------------------------------------------------------------------
  // Walking the tree

  /** `chain` lists `start` and its ancestors, each the parent of the one before, ending at the root. */
  ghost predicate IsParentChain(start: PNode, chain: seq<PNode>)
    reads chain
  {
    |chain| > 0 && chain[0] == start &&
    (forall i :: 0 <= i < |chain| - 1 ==> chain[i].parent == chain[i + 1]) &&
    chain[|chain| - 1].parent == null
  }

  /** A variable term for each node of the chain that introduced a free variable, in chain order. */
  ghost function IntroducedVars(chain: seq<PNode>): seq<Term>
    reads chain
  {
    if chain == [] then []
    else
      (if chain[0].freeVar.Some? then [VarTerm(chain[0].freeVar.value)] else []) +
      IntroducedVars(chain[1..])
  }

  lemma {:induction false} IntroducedVarsAppend(a: seq<PNode>, b: seq<PNode>)
    ensures IntroducedVars(a + b) == IntroducedVars(a) + IntroducedVars(b)
  {
    if a == [] {
      assert a + b == b;
    } else {
      assert (a + b)[0] == a[0] && (a + b)[1..] == a[1..] + b;
      IntroducedVarsAppend(a[1..], b);
    }
  }

  /** The collected list holds exactly the variables introduced along the chain, and nothing else. */
  lemma {:induction false} IntroducedVarsMembers(chain: seq<PNode>, v: Term)
    ensures v in IntroducedVars(chain) <==>
      exists i :: 0 <= i < |chain| && chain[i].freeVar.Some? && v == VarTerm(chain[i].freeVar.value)
  {
    if chain != [] {
      IntroducedVarsMembers(chain[1..], v);
      if v in IntroducedVars(chain[1..]) {
        var i :| 0 <= i < |chain[1..]| && chain[1..][i].freeVar.Some? &&
                 v == VarTerm(chain[1..][i].freeVar.value);
        assert chain[i + 1] == chain[1..][i];
      }
      if exists i :: 1 <= i < |chain| && chain[i].freeVar.Some? && v == VarTerm(chain[i].freeVar.value) {
        var i :| 1 <= i < |chain| && chain[i].freeVar.Some? && v == VarTerm(chain[i].freeVar.value);
        assert chain[1..][i - 1] == chain[i];
      }
    }
  }

  ghost predicate ClosedUnderChildren(nodes: set<PNode>)
    reads nodes
  {
    forall n, c :: n in nodes && c in n.children ==> c in nodes
  }

  /** The nodes reachable from `root` in at most `k` steps from a node of `nodes` to one of its children. */
  ghost function Descendants(root: PNode, nodes: set<PNode>, k: nat): set<PNode>
    reads nodes
  {
    if k == 0 then {root}
    else
      var r := Descendants(root, nodes, k - 1);
      r + set n, c | n in r && n in nodes && c in n.children :: c
  }

  ghost predicate Reachable(root: PNode, n: PNode, nodes: set<PNode>)
    reads nodes
  {
    exists k: nat :: n in Descendants(root, nodes, k)
  }

  lemma ReachableStep(root: PNode, n: PNode, c: PNode, nodes: set<PNode>)
    requires Reachable(root, n, nodes) && n in nodes && c in n.children
    ensures Reachable(root, c, nodes)
  {
    var k: nat :| n in Descendants(root, nodes, k);
    assert c in Descendants(root, nodes, k + 1);
  }

  /** Everything reachable from a node of a set closed under `children` lies in that set. */
  lemma {:induction false} DescendantsStayIn(root: PNode, nodes: set<PNode>, s: set<PNode>, k: nat)
    requires root in s
    requires forall m, c :: m in s && c in m.children ==> c in s
    ensures Descendants(root, nodes, k) <= s
  {
    if k > 0 {
      DescendantsStayIn(root, nodes, s, k - 1);
    }
  }

  // ---------------------------------------------------------------------------------------
  // Rule applicability

  /** The Alpha rule's applicability test: the non-branching connectives for each sign. */
  predicate AlphaApplicable(positive: bool, t: Term): (b: bool)
    ensures b ==> t.op in {AND, OR, IMP, NOT}
    ensures t.op == NOT ==> b
  {
    if !positive then t.op == OR || t.op == IMP || t.op == NOT
    else t.op == AND || t.op == NOT
  }

  /** The Beta rule's applicability test: the branching connectives for each sign. */
  predicate BetaApplicable(positive: bool, t: Term): (b: bool)
    ensures b ==> t.op in {AND, OR, IMP}
    ensures b ==> (t.op == AND <==> !positive)
  {
    if positive then t.op == OR || t.op == IMP
    else t.op == AND
  }

  /** The Gamma rule's applicability test: affirmed `forall`, denied `exists`. */
  predicate GammaApplicable(positive: bool, t: Term): (b: bool)
    ensures b ==> t.op in {FORALL, EXISTS}
    ensures b ==> (t.op == FORALL <==> positive)
  {
    if positive then t.op == FORALL
    else t.op == EXISTS
  }

  /** The Delta rule's applicability test: denied `forall`, affirmed `exists`. */
  predicate DeltaApplicable(positive: bool, t: Term): (b: bool)
    ensures b ==> t.op in {FORALL, EXISTS}
    ensures b ==> (t.op == EXISTS <==> positive)
  {
    if !positive then t.op == FORALL
    else t.op == EXISTS
  }

  /**
   * For each sign, every connective is handled by exactly one of Alpha and Beta, every
   * quantifier by exactly one of Gamma and Delta, and no rule applies to anything else.
   */
  lemma RuleDispatch(positive: bool, t: Term)
    ensures t.op in {AND, OR, IMP, NOT} ==>
      AlphaApplicable(positive, t) != BetaApplicable(positive, t) &&
      !GammaApplicable(positive, t) && !DeltaApplicable(positive, t)
    ensures t.op in {FORALL, EXISTS} ==>
      GammaApplicable(positive, t) != DeltaApplicable(positive, t) &&
      !AlphaApplicable(positive, t) && !BetaApplicable(positive, t)
    ensures t.op !in {AND, OR, IMP, NOT, FORALL, EXISTS} ==>
      !AlphaApplicable(positive, t) && !BetaApplicable(positive, t) &&
      !GammaApplicable(positive, t) && !DeltaApplicable(positive, t)
  {
  }

  /**
   * Flipping the sign swaps the rules: a binary connective that Alpha handles under one sign
   * is handled by Beta under the other, and likewise for Gamma and Delta on quantifiers.
   */
  lemma SignDuality(positive: bool, t: Term)
    ensures t.op in {AND, OR, IMP} ==> (AlphaApplicable(positive, t) <==> BetaApplicable(!positive, t))
    ensures GammaApplicable(positive, t) <==> DeltaApplicable(!positive, t)
  {
  }

  // ---------------------------------------------------------------------------------------
  // Alpha and Beta

  /** The argument at position `i`, absent past the end. */
  function Arg(t: Term, i: nat): Option<Term>
  {
    if i < |t.args| then Some(t.args[i]) else None
  }

  /**
   * The sign and formula of each node Alpha builds. Nodes start denied; `and` affirms both,
   * `imp` affirms the first, `not` gives both the opposite sign. Unless there are exactly two
   * arguments the second node is the first one again, so it shares the first one's sign.
   */
  function AlphaSigns(positive: bool, t: Term): seq<Signed>
  {
    var first := Signed(if t.op == AND || t.op == IMP then true
                        else if t.op == NOT then !positive
                        else false,
                        Arg(t, 0));
    var second := if |t.args| == 2 then
                    Signed(if t.op == AND then true else if t.op == NOT then !positive else false, Arg(t, 1))
                  else first;
    if t.op == NOT then [first] else [first, second]
  }

  /** The Alpha rule's `apply`: one new node for `not`, two otherwise. */
  method AlphaApply(positive: bool, t: Term) returns (ps: seq<PNode>)
    ensures |ps| == |AlphaSigns(positive, t)|
    ensures forall i :: 0 <= i < |ps| ==>
      fresh(ps[i]) && ps[i].Unlinked() && ps[i].freeVar.None? &&
      Signed(ps[i].positive, ps[i].term) == AlphaSigns(positive, t)[i]
    ensures |ps| == 2 ==> (ps[0] == ps[1] <==> |t.args| != 2)
  {
    var p1 := new PNode(false, Arg(t, 0));
    var p2;
    if |t.args| == 2 {
      p2 := new PNode(false, Arg(t, 1));
    } else {
      p2 := p1;
    }
    if t.op == AND {
      p1.positive := true;
      p2.positive := true;
    } else if t.op == IMP {
      p1.positive := true;
    } else if t.op == NOT {
      p1.positive := !positive;
      p2.positive := !positive;
    }
    if t.op != NOT {
      ps := [p1, p2];
    } else {
      ps := [p1];
    }
  }

  /** On an applicable, well-formed input, Alpha gives the textbook non-branching expansions. */
  lemma AlphaExpansions(positive: bool, t: Term)
    requires AlphaApplicable(positive, t)
    requires if t.op == NOT then |t.args| == 1 else |t.args| == 2
    ensures t.op == NOT ==> AlphaSigns(positive, t) == [Signed(!positive, Some(t.args[0]))]
    ensures t.op == AND ==> AlphaSigns(positive, t) == [Signed(true, Some(t.args[0])), Signed(true, Some(t.args[1]))]
    ensures t.op == IMP ==> AlphaSigns(positive, t) == [Signed(true, Some(t.args[0])), Signed(false, Some(t.args[1]))]
    ensures t.op == OR ==> AlphaSigns(positive, t) == [Signed(false, Some(t.args[0])), Signed(false, Some(t.args[1]))]
  {
  }

  /** Alpha is sound and complete: the input holds exactly when every expansion holds. */
  lemma AlphaSound(positive: bool, t: Term, atom: Term -> bool)
    requires AlphaApplicable(positive, t) && PropFormula(t)
    ensures Holds(Signed(positive, Some(t)), atom) <==>
      forall s :: s in AlphaSigns(positive, t) ==> Holds(s, atom)
  {
    AlphaExpansions(positive, t);
    var ss := AlphaSigns(positive, t);
    if t.op == NOT {
      assert Holds(Signed(positive, Some(t)), atom) <==> Holds(ss[0], atom);
    } else {
      assert Holds(Signed(positive, Some(t)), atom) <==> Holds(ss[0], atom) && Holds(ss[1], atom);
    }
  }

  /** The sign and formula of the two alternatives Beta builds: `or` T,T, `imp` F,T, otherwise F,F. */
  function BetaSigns(t: Term): seq<Signed>
  {
    var first := t.op == OR;
    var second := t.op == OR || t.op == IMP;
    [Signed(first, Arg(t, 0)), Signed(second, Arg(t, 1))]
  }

  /** The Beta rule's `apply`: two distinct new nodes, one per branch. */
  method BetaApply(positive: bool, t: Term) returns (ps: seq<PNode>)
    ensures |ps| == 2 && ps[0] != ps[1]
    ensures forall i :: 0 <= i < 2 ==>
      fresh(ps[i]) && ps[i].Unlinked() && ps[i].freeVar.None? &&
      Signed(ps[i].positive, ps[i].term) == BetaSigns(t)[i]
  {
    var p1 := new PNode(false, Arg(t, 0));
    var p2 := new PNode(false, Arg(t, 1));
    if t.op == OR {
      p1.positive := true;
      p2.positive := true;
    } else if t.op == IMP {
      p1.positive := false;
      p2.positive := true;
    }
    ps := [p1, p2];
  }

  /** Beta is sound and complete: the input holds exactly when one of the two branches holds. */
  lemma BetaSound(positive: bool, t: Term, atom: Term -> bool)
    requires BetaApplicable(positive, t) && PropFormula(t)
    ensures Holds(Signed(positive, Some(t)), atom) <==>
      exists s :: s in BetaSigns(t) && Holds(s, atom)
  {
    var ss := BetaSigns(t);
    assert ss[0] in ss && ss[1] in ss && |ss| == 2;
    assert Holds(Signed(positive, Some(t)), atom) <==> Holds(ss[0], atom) || Holds(ss[1], atom);
  }

  // ---------------------------------------------------------------------------------------
  // Generated names

  /** Upper-casing, on the ASCII letters. */
  function ToUpper(s: string): (u: string)
    ensures |u| == |s|
    ensures forall i :: 0 <= i < |u| ==> !('a' <= u[i] <= 'z')
    ensures forall i :: 0 <= i < |s| && !('a' <= s[i] <= 'z') ==> u[i] == s[i]
    ensures forall i :: 0 <= i < |s| && 'a' <= s[i] <= 'z' ==>
      'A' <= u[i] <= 'Z' && u[i] as int - 'A' as int == s[i] as int - 'a' as int
  {
    seq(|s|, i requires 0 <= i < |s| => if 'a' <= s[i] <= 'z' then (s[i] as int - 32) as char else s[i])
  }

  predicate AllDigits(s: string)
  {
    forall i :: 0 <= i < |s| ==> '0' <= s[i] <= '9'
  }

  /** The decimal text of a counter value, as string concatenation renders it. */
  function DecimalString(n: nat): (s: string)
    ensures |s| > 0 && AllDigits(s)
    ensures s[0] == '0' ==> n == 0
    decreases n
  {
    var last := [('0' as int + n % 10) as char];
    if n < 10 then last else DecimalString(n / 10) + last
  }

  /** Reads decimal text back as a number. */
  function DecimalValue(s: string): nat
    requires AllDigits(s)
  {
    if s == [] then 0 else DecimalValue(s[..|s| - 1]) * 10 + (s[|s| - 1] as int - '0' as int)
  }

  lemma {:induction false} DecimalRoundTrip(n: nat)
    ensures DecimalValue(DecimalString(n)) == n
    decreases n
  {
    var s := DecimalString(n);
    if n < 10 {
      assert s[..|s| - 1] == [];
    } else {
      assert s[..|s| - 1] == DecimalString(n / 10);
      DecimalRoundTrip(n / 10);
    }
  }

  /** The Gamma variable: the upper-cased bound name followed by the counter, with no separator. */
  function FreshName(bind: string, counter: nat): (name: string)
    ensures |name| > |bind| && name[..|bind|] == ToUpper(bind)
    ensures AllDigits(name[|bind|..]) && DecimalValue(name[|bind|..]) == counter
    ensures name[|bind|] == '0' ==> counter == 0
  {
    DecimalRoundTrip(counter);
    var name := ToUpper(bind) + DecimalString(counter);
    assert name[|bind|..] == DecimalString(counter);
    name
  }

  /** The Delta function name: the letter f followed by the counter. */
  function SkolemName(counter: nat): (name: string)
    ensures |name| > 1 && name[0] == 'f'
    ensures AllDigits(name[1..]) && DecimalValue(name[1..]) == counter
    ensures name[1] == '0' ==> counter == 0
  {
    DecimalRoundTrip(counter);
    var name := "f" + DecimalString(counter);
    assert name[1..] == DecimalString(counter);
    name
  }

  /** For one bound name, distinct counter values give distinct Gamma variables. */
  lemma FreshNamesDistinct(bind: string, i: nat, j: nat)
    requires i != j
    ensures FreshName(bind, i) != FreshName(bind, j)
  {
  }

  /** Distinct counter values give distinct Skolem function names. */
  lemma SkolemNamesDistinct(i: nat, j: nat)
    requires i != j
    ensures SkolemName(i) != SkolemName(j)
  {
  }

  /** Across bound names the Gamma variables can collide: `x` at 11 and `x1` at 1 both give `X11`. */
  lemma FreshNameCollision()
    ensures FreshName("x", 11) == FreshName("x1", 1) == "X11"
  {
  }

  // ---------------------------------------------------------------------------------------
  // Gamma and Delta, sharing one counter

  /** Why a quantifier rule aborts: no bound name, or no body (no first argument). */
  datatype RuleError = MissingBind | MissingBody

  /** The Skolem function term named from the counter, applied to the given arguments. */
  function SkolemTerm(counter: nat, args: seq<Term>): (f: Term)
    ensures f.op == SKOLEM && f.name == Some(SkolemName(counter)) && f.bind.None? && f.args == args
    ensures forall s :: Subst(f, s) == f
  {
    Term(SKOLEM, Some(SkolemName(counter)), None, args)
  }

  /** The proof session: owns the counter that Gamma and Delta both advance. */
  class Session {
    var counter: nat

    constructor ()
      ensures counter == 0
    {
      counter := 0;
    }

    /**
     * The Gamma rule's `apply`: instantiates the bound variable of a copy of the body with the
     * fresh variable built from the advanced counter, and records it on the new node.
     */
    method GammaApply(positive: bool, t: Term) returns (r: Result<seq<PNode>, RuleError>)
      modifies this`counter
      ensures t.bind.None? ==> r == Failure(MissingBind) && counter == old(counter)
      ensures t.bind.Some? && |t.args| == 0 ==> r == Failure(MissingBody) && counter == old(counter)
      ensures t.bind.Some? && |t.args| > 0 ==>
        counter == old(counter) + 1 && r.Success? && |r.value| == 1 &&
        var p, name := r.value[0], FreshName(t.bind.value, counter);
        fresh(p) && p.Unlinked() && p.positive == positive && p.freeVar == Some(name) &&
        p.term == Some(Subst(t.args[0], map[t.bind.value := VarTerm(name)]))
    {
      if t.bind.None? {
        return Failure(MissingBind);
      }
      var bounded := t.bind.value;
      if |t.args| == 0 {
        return Failure(MissingBody);
      }
      var c1 := CopyTerm(t.args[0]);
      counter := counter + 1;
      var freeVar := FreshName(bounded, counter);
      var c2 := SubstituteVar(c1, bounded, freeVar);
      var p1 := new PNode(positive, Some(c2));
      p1.freeVar := Some(freeVar);
      r := Success([p1]);
    }

    /**
     * The Delta rule's `apply`: instantiates the bound variable of a copy of the body with a
     * Skolem term named from the advanced counter, whose arguments are the given free variables.
     */
    method DeltaApply(positive: bool, t: Term, freeVars: seq<Term>) returns (r: Result<seq<PNode>, RuleError>)
      modifies this`counter
      ensures t.bind.None? ==> r == Failure(MissingBind) && counter == old(counter)
      ensures t.bind.Some? && |t.args| == 0 ==> r == Failure(MissingBody) && counter == old(counter)
      ensures t.bind.Some? && |t.args| > 0 ==>
        counter == old(counter) + 1 && r.Success? && |r.value| == 1 &&
        var p := r.value[0];
        fresh(p) && p.Unlinked() && p.positive == positive && p.freeVar.None? &&
        p.term == Some(Subst(t.args[0], map[t.bind.value := SkolemTerm(counter, freeVars)]))
    {
      if t.bind.None? {
        return Failure(MissingBind);
      }
      var bounded := t.bind.value;
      if |t.args| == 0 {
        return Failure(MissingBody);
      }
      var c1 := CopyTerm(t.args[0]);
      counter := counter + 1;
      var skolemFun := SkolemTerm(counter, freeVars);
      var c2 := Substitute(c1, bounded, skolemFun);
      var p1 := new PNode(positive, Some(c2));
      r := Success([p1]);
    }
  }
}
