# Tableau prover engine: a Dafny model

This project models the proof engine of an interactive semantic-tableau prover for
first-order logic. It covers two parts.

- **The term algebra** (`Terms`, src/Term.ts). A formula node has an operator tag, an optional
  name, an optional bound name and a list of arguments. The tags are `predicate`, `var`, `not`,
  `and`, `or`, `imp`, `forall`, `exists` and `term` (a Skolem function term; the parser also
  uses it for constants). The module models the constructor's check for undefined arguments,
  deep copy, structural equality, substitution by a name-to-term map and its single-variable
  wrappers, the post-parse pass that turns bound constants into variables, and unification.
- **Proof-tree bookkeeping and the four tableau rules** (`Proof`, src/Proof.ts). This covers the
  proof node (`PNode`) with its tree walks, the applicability tests and expansions of the
  Alpha, Beta, Gamma and Delta rules, and the counter that Gamma and Delta share.

`Semantics` gives the propositional connectives a classical meaning. The model uses it to
state that Alpha and Beta are sound and complete. `Scenarios` works through small concrete
formulas, including a Gamma step followed by a Delta step. `Wrappers` holds `Option` and
`Result`.

The model follows the code wherever its behaviour is unusual:

- Under `forall`/`exists`, substitution enters the body only when the map *contains* the
  quantifier's own bound name. This is the reverse of ordinary shadowing.
- Substitution leaves every operator without a case untouched, Skolem terms among them: it
  never enters a Skolem term's arguments.
- For the post-parse pass, the `term` case falls through to the quantifier case. So a Skolem
  term that carries a bound name has its arguments rewritten with that name pushed.
- The variables that Gamma generates are the upper-cased bound name followed directly by the
  counter, with no separator. Names are therefore distinct for one bound name, but not across
  bound names.

Alpha on a denied `or` gives two denied nodes, which is the standard rule. The code gets there
because new nodes start denied and `or` has no case of its own in the switch. `AlphaSound`
proves the expansion classically sound and complete.

Terms are values. The loops of the source that rewrite argument arrays in place are methods
that build the rewritten value. Each is proved equal to a specification function: `Subst` for
substitution, `Rewrite` for the post-parse pass, and `==` for copy and equality. Proof nodes
are heap objects of class `PNode`. The rule applications allocate them and set their fields.
The shared counter is the field `counter` of a `Session` object.

## Model

| member | source | states |
|---|---|---|
| Terms.NewTerm | src/Term.ts:13-22 | construction fails exactly when some argument slot is undefined; otherwise op, name, bind and every argument are stored as given |
| Terms.CopyTerm | src/Term.ts:24-33 | the copy, built argument by argument, is equal to the original |
| Terms.Eq | src/Term.ts:103-117 | true exactly when the other term is present and has the same op, name, bind, arity and pairwise-equal arguments (structural equality), so it is reflexive and symmetric; false against null |
| Terms.SubstituteAll | src/Term.ts:45-71 | the result is `Subst`: connectives and predicates have every argument rewritten; a variable whose name is a key becomes the mapped term, any other variable stays; a quantifier's body is rewritten only when its bound name is a key; other ops (Skolem terms) are returned unchanged |
| Terms.SubstituteArgs | src/Term.ts:52-54 | the in-place loop over the argument keys replaces each argument by its substituted version and keeps the arity |
| Terms.Substitute | src/Term.ts:39-43 | equals substitution by the one-entry map {bounded -> arg} |
| Terms.SubstituteVar | src/Term.ts:35-37 | equals `substitute(bounded, var n)` |
| Terms.SubstIdentity | src/Term.ts:45-71 | substitution leaves a term unchanged when no key names one of its variables |
| Terms.SubstEmpty | src/Term.ts:45-71 | the empty map yields a term equal to the input |
| Terms.SubstIdempotent | src/Term.ts:45-71 | substituting twice equals substituting once when the mapped terms contain none of the keys |
| Terms.Unify | src/Term.ts:120-124 | the result is true exactly when the two substituted copies are equal; the inputs are values and stay unchanged |
| Terms.UnifyEmptyIffEqual | src/Term.ts:120-124 | under the empty map, two terms unify if and only if they are equal |
| Terms.UnifyWithInstance | src/Term.ts:120-124 | a term unifies with its own instance under a map whose values contain no key |
| Terms.RewriteVars | src/Term.ts:73-100 | the result is `Rewrite`: a 0-ary `term` whose name is on the bound-name stack becomes a `var`; the stack is handed back exactly as it came in (push/pop) |
| Terms.RewriteArgs | src/Term.ts:81-83 | each argument is rewritten under the same stack, the arity is kept, and the stack comes back unchanged |
| Terms.ParseTerm | src/Term.ts:126-130 | parser output is passed through the variable pass with an empty stack |
| Terms.RewriteRetags | src/Term.ts:85-97 | the pass keeps every name, bound name and arity, and changes an op only from `term` (0-ary) to `var` |
| Terms.RewriteIdempotent | src/Term.ts:73-100 | running the pass twice with the same stack gives the same result as running it once |
| Terms.RewriteDependsOnNamesOnly | src/Term.ts:86 | the stack is only asked whether it holds a name: two stacks holding the same names give the same result |
| Proof.PNode.constructor | src/Proof.ts:33-36 | the flag is stored as the sign, the term as given; no children, no parent, pos -1, not a goal, not closed, no substitution, no free variable |
| Proof.PNode.FreeVars | src/Proof.ts:38-49 | one `var` term for each node on the chain from this node to the root whose `freeVar` is set, nearest first |
| Proof.IntroducedVarsMembers | src/Proof.ts:38-49 | a term is in the collected list exactly when it is the variable introduced by some node of the chain |
| Proof.PNode.AppendGoal | src/Proof.ts:51-56 | exactly one new node is appended at the end of `children`, with goal set, no term and the denied sign; its parent and pos are left unset |
| Proof.PNode.AllChildren | src/Proof.ts:59-69 | the result starts with this node, holds no node twice, and holds exactly the nodes reachable from this one through `children` |
| Proof.DescendantsStayIn | src/Proof.ts:59-69 | a set that contains the start node and is closed under `children` contains every node reachable from it |
| Proof.PNode.Parents | src/Proof.ts:71-79 | returns [this, parent, ..., root]: each element is the parent of the one before, and the last has no parent |
| Proof.AlphaApplicable | src/Proof.ts:91-97 | Alpha's test accepts only the connectives `and`, `or`, `imp` and `not`, and always accepts `not` |
| Proof.BetaApplicable | src/Proof.ts:137-143 | Beta's test accepts only `and`, `or` and `imp`, and accepts `and` exactly under the denied sign |
| Proof.GammaApplicable | src/Proof.ts:168-174 | Gamma's test accepts only quantifiers: `forall` when affirmed, `exists` when denied |
| Proof.DeltaApplicable | src/Proof.ts:189-195 | Delta's test accepts only quantifiers: `exists` when affirmed, `forall` when denied |
| Proof.RuleDispatch | src/Proof.ts:91-195 | with `AlphaApplicable`, `BetaApplicable`, `GammaApplicable` and `DeltaApplicable` as the four `applicable` tests: for either sign, exactly one of Alpha and Beta applies to `and`, `or`, `imp` and `not`; exactly one of Gamma and Delta applies to `forall` and `exists`; no rule applies to any other op |
| Proof.SignDuality | src/Proof.ts:91-195 | flipping the sign hands a binary connective from Alpha to Beta (and back), and a quantifier from Gamma to Delta |
| Proof.AlphaApply | src/Proof.ts:98-130 | one fresh node for `not`, two otherwise, carrying the signs and arguments of `AlphaSigns`; the second node is the first one again unless there are exactly two arguments |
| Proof.AlphaExpansions | src/Proof.ts:91-130 | on applicable input: `not` gives [!sign args0], `and` gives [T args0, T args1], `imp` gives [T args0, F args1], `or` gives [F args0, F args1] |
| Proof.AlphaSound | src/Proof.ts:91-130 | a signed connective to which Alpha applies holds exactly when all of its expansions hold |
| Proof.BetaApply | src/Proof.ts:144-161 | two distinct fresh nodes on args0 and args1, signed T,T for `or`, F,T for `imp` and F,F otherwise |
| Proof.BetaSound | src/Proof.ts:137-161 | a signed connective to which Beta applies holds exactly when one of its two branches holds |
| Proof.Session.constructor | src/Proof.ts:164 | the counter starts at 0 |
| Proof.Session.GammaApply | src/Proof.ts:175-184 | fails without touching the counter when the bound name or the body is missing; otherwise advances the counter by one and returns one node with the input sign, whose term is the body with the bound variable replaced by `var(upper(bind) + counter)` and whose `freeVar` is that name |
| Proof.Session.DeltaApply | src/Proof.ts:197-207 | fails without touching the counter when the bound name or the body is missing; otherwise advances the same counter by one and returns one node with the input sign, whose term is the body with the bound variable replaced by `term("f" + counter)` applied to exactly the given free variables, and whose `freeVar` is unset |
| Proof.ToUpper | src/Proof.ts:179 | upper-casing keeps the length, turns each lower-case ASCII letter into its own capital, and changes nothing else |
| Proof.FreshName | src/Proof.ts:179 | the Gamma variable is the upper-cased bound name followed directly by decimal digits that read back as the counter, with no leading zero |
| Proof.SkolemName | src/Proof.ts:202 | the Delta function name is `f` followed by decimal digits that read back as the counter, with no leading zero |
| Proof.SkolemTerm | src/Proof.ts:202 | the Skolem term has op `term`, the counter's function name, no bound name and exactly the given free variables as arguments, and no substitution changes it |
| Proof.DecimalString | src/Proof.ts:179 | the counter is rendered as non-empty decimal digits with no leading zero |
| Proof.DecimalRoundTrip | src/Proof.ts:179 | reading the rendered counter back as a decimal number gives the counter |
| Proof.FreshNamesDistinct | src/Proof.ts:179 | for one bound name, different counter values give different variable names |
| Proof.SkolemNamesDistinct | src/Proof.ts:202 | different counter values give different Skolem function names |
| Proof.FreshNameCollision | src/Proof.ts:179 | across bound names, generated names can collide: `x` at 11 and `x1` at 1 both give `X11` |
| Scenarios.QuantifierGuardReversed | src/Term.ts:62-68 | `forall y. P(x, y)` keeps its `x` under {x -> X1}, but `forall x. P(x)` becomes `forall x. P(X1)` |
| Scenarios.SkolemArgumentsUntouched | src/Term.ts:46-70 | substitution does not enter the arguments of a Skolem term |
| Scenarios.ClosureExamples | src/Term.ts:120-124 | `P(a)` and `P(b)` do not unify under {a -> a}; `P(X1)` and `P(a)` unify under {X1 -> a} |
| Scenarios.ParseBindsQuantifiedNames | src/Term.ts:126-130 | a constant named like an enclosing binder becomes a variable, and other constants stay constants |

## Left out

- The React user interface (src/App.tsx) is not part of this model.
- The formula grammar `parse` (src/Term.ts:1) is an external parser that is not part of this model. Its output is an arbitrary `Term`, and `ParseTerm` models only the variable pass applied to it.
- A node's random `id` and its layout coordinates `x` and `y` (src/Proof.ts:5-7) come from randomness and rendering, so they are left out.
- The `console.log` in `copyTerm` (src/Term.ts:31) is output with no effect on the result.
- Object identity and aliasing between terms are not modelled, because terms are values. In the source, `substituteAll` and `rewriteVars` overwrite argument arrays in place. Applied to a term that was not copied first, they change the original, and any branch sharing its sub-terms. The model returns the rewritten value and leaves the input as it was. The same holds for `substituteAll` handing back the mapped object itself, and for Alpha and Beta reusing `t.args` without copying.
- Terms.CopyTerm: states equality with the original only. That the argument arrays are freshly allocated cannot be observed on values.
- Exceptions are modelled as failure results (`Result.Failure`): `AssertionError` from the constructor and the missing bound name, and the `TypeError` that `t.args[0].copyTerm()` raises when the body is missing.
- The base class `Rule` (src/Proof.ts:82-86) is never applicable and builds nothing, and the `type` tags are display names. The four concrete rules are modelled as four applicability predicates and four apply methods.
- Proof.PNode.FreeVars and Proof.PNode.Parents are given the parent chain as a ghost argument and require it to end at the root. On a cyclic chain the source never terminates, and the model does not cover that case.
- Proof.PNode.AllChildren is given a ghost set of nodes that contains this node and is closed under `children`. A finite heap always has one. The source's `cur === undefined` test cannot succeed while the stack is non-empty, so it is dropped.
- Proof.ToUpper: upper-cases ASCII letters only. JavaScript's `toUpperCase` applies full Unicode case mapping.
- Proof.DecimalString: the counter is an unbounded natural. The source's counter is a JavaScript number, which loses precision past 2^53 and uses exponent notation from 10^21.
- Branch closure, the common-ancestor search, applying a rule at a goal, and parsing substitution text have no code in src/Term.ts or src/Proof.ts, so they are not modelled.
