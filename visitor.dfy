/**
 * The generic visitor engine: a post-order rewrite of pytd trees with
 * Enter/Visit/Leave hooks, and the computation of the set of node kinds a
 * visitor needs to descend into.
 *
 * A visitor's instance fields are the state `S` that the hooks thread
 * through the traversal, in visiting order.
 */
module Visit {
  import opened Wrappers
  import opened Pytd

  /** The exceptions a pass can raise, grouped below by Python exception class. */
  datatype PassError =
    | IllegalTypeParameterOrder(className: string)
    | DuplicateTypeParameter(name: string, className: string)
    | UnboundTypeParameter(name: string, where: string)
    | UnresolvedNamedType(name: string)
    | UnresolvedClassType(name: string)
    | PointerAlreadySet(name: string)
    | KeyError(key: string)
    | SymbolLookupError(name: string)
    | EmptyModuleName
    /** A type parameter without a scope reached string code (Python raises AttributeError). */
    | MissingScope(name: string)
    | UnrestorableDependencyError(key: string)
    /** A module's `__getattr__` is not a function with exactly one signature. */
    | BadGetattr(moduleName: string)
    /** A hook replaced a child by a node its parent cannot hold. */
    | Malformed(parent: Kind)

  predicate IsContainerError(e: PassError) {
    e.IllegalTypeParameterOrder? || e.DuplicateTypeParameter? || e.UnboundTypeParameter?
  }

  predicate IsValueError(e: PassError) {
    e.UnresolvedNamedType? || e.UnresolvedClassType? || e.PointerAlreadySet? || e.EmptyModuleName?
  }

  /**
   * A visitor: which kinds have Enter, Visit and Leave handlers, whether it
   * overrides the generic `Enter`/`Visit`/`Leave` dispatchers, and the hooks.
   * A hook is only called for the kinds listed for it.
   */
  datatype Visitor<!S> = Visitor(
    enterKinds: set<Kind>,
    visitKinds: set<Kind>,
    leaveKinds: set<Kind>,
    overridesDispatch: bool,
    enter: (S, Node) -> Result<S, PassError>,
    visit: (S, Node) -> Result<(S, Node), PassError>,
    leave: (S, Node) -> S)

  function Handled<S>(v: Visitor<S>): set<Kind> {
    v.enterKinds + v.visitKinds + v.leaveKinds
  }

  // ---------------------------------------------------------------------
  // Which kinds to descend into

  /** The kinds that may occur directly beneath some kind in `ks`. */
  function Succ(ks: set<Kind>): set<Kind> {
    set k, c | k in ks && c in Contains(k) :: c
  }

  lemma StrictSubsetSmaller<T>(a: set<T>, b: set<T>)
    requires a < b
    ensures |a| < |b|
  {
    var x :| x in b && x !in a;
    var c := b - {x};
    assert c == a + (c - a);
    assert a * (c - a) == {};
  }

  /** Adding the successors of `ks` leaves fewer kinds outside. */
  lemma GrowthShrinksRest(ks: set<Kind>)
    requires !(ks + Succ(ks) <= ks)
    ensures |AllKinds - (ks + Succ(ks))| < |AllKinds - ks|
  {
    var next := ks + Succ(ks);
    forall k | k in next ensures k in AllKinds { AllKindsComplete(k); }
    var k :| k in next && k !in ks;
    assert k in AllKinds - ks;
    StrictSubsetSmaller(AllKinds - next, AllKinds - ks);
  }

  /** The reflexive-transitive closure of the adjacency table from `ks`. */
  function Closure(ks: set<Kind>): (r: set<Kind>)
    ensures ks <= r && Succ(r) <= r
    decreases |AllKinds - ks|
  {
    var next := ks + Succ(ks);
    if next <= ks then ks
    else GrowthShrinksRest(ks); Closure(next)
  }

  lemma SuccMonotone(a: set<Kind>, b: set<Kind>)
    requires a <= b
    ensures Succ(a) <= Succ(b)
  {
  }

  /** The closure is the least superset of `ks` that the table cannot leave. */
  lemma {:induction false} ClosureLeast(ks: set<Kind>, t: set<Kind>)
    requires ks <= t && Succ(t) <= t
    ensures Closure(ks) <= t
    decreases |AllKinds - ks|
  {
    var next := ks + Succ(ks);
    if !(next <= ks) {
      GrowthShrinksRest(ks);
      SuccMonotone(ks, t);
      ClosureLeast(next, t);
    }
  }

  /** The kinds whose nodes can (transitively) hold a node of kind `k`, `k` included. */
  function Ancestors(k: Kind): set<Kind> {
    set a | a in AllKinds && k in Closure({a})
  }

  /** Reverse of `KindName`: the node class a handler name refers to, if any. */
  function KindNamed(name: string): (r: Option<Kind>)
    ensures r.Some? ==> KindName(r.value) == name
  {
    if name == "TypeDeclUnit" then Some(KUnit)
    else if name == "Constant" then Some(KConstant)
    else if name == "Alias" then Some(KAlias)
    else if name == "Class" then Some(KClass)
    else if name == "Function" then Some(KFunction)
    else if name == "ExternalFunction" then Some(KExternalFunction)
    else if name == "Signature" then Some(KSignature)
    else if name == "Parameter" then Some(KParameter)
    else if name == "NamedType" then Some(KNamedType)
    else if name == "ClassType" then Some(KClassType)
    else if name == "FunctionType" then Some(KFunctionType)
    else if name == "GenericType" then Some(KGenericType)
    else if name == "TupleType" then Some(KTupleType)
    else if name == "CallableType" then Some(KCallableType)
    else if name == "UnionType" then Some(KUnionType)
    else if name == "TypeParameter" then Some(KTypeParameter)
    else if name == "AnythingType" then Some(KAnythingType)
    else if name == "NothingType" then Some(KNothingType)
    else None
  }

  lemma KindNamedName(k: Kind)
    ensures KindNamed(KindName(k)) == Some(k)
  {
  }

  datatype VisitSet = AllNodes | Only(kinds: set<Kind>)

  predicate Visits(vs: VisitSet, k: Kind) {
    vs.AllNodes? || k in vs.kinds
  }

  /**
   * The visit set of a visitor whose handlers are named `handled` (the part
   * of each `Enter…`/`Visit…`/`Leave…` method name after the prefix).  The
   * empty name stands for the generic dispatchers themselves.
   */
  function VisitClassNames(handled: set<string>, overridesDispatch: bool): VisitSet {
    if overridesDispatch || exists name :: name in handled && name != "" && KindNamed(name).None? then AllNodes
    else Only(set a, name | name in handled && KindNamed(name).Some? && a in Ancestors(KindNamed(name).value) :: a)
  }

  function HandlerNames<S>(v: Visitor<S>): set<string> {
    set k | k in Handled(v) :: KindName(k)
  }

  function VisitSetOf<S>(v: Visitor<S>): VisitSet {
    VisitClassNames(HandlerNames(v), v.overridesDispatch)
  }

  /**
   * Unless everything is visited, the visit set holds exactly the kinds
   * whose nodes can hold a node that has a handler.
   */
  lemma VisitSetMeaning<S>(v: Visitor<S>, k: Kind)
    requires VisitSetOf(v).Only?
    ensures k in VisitSetOf(v).kinds <==> exists h :: h in Handled(v) && h in Closure({k})
  {
    var vs := VisitSetOf(v);
    if k in vs.kinds {
      var a, name :| name in HandlerNames(v) && KindNamed(name).Some? && a in Ancestors(KindNamed(name).value) && a == k;
      var h :| h in Handled(v) && KindName(h) == name;
      KindNamedName(h);
    }
    if exists h :: h in Handled(v) && h in Closure({k}) {
      var h :| h in Handled(v) && h in Closure({k});
      KindNamedName(h);
      AllKindsComplete(k);
      assert KindName(h) in HandlerNames(v);
      assert k in Ancestors(h);
    }
  }

  // ---------------------------------------------------------------------
  // The traversal

  function Rebuild(n: Node, cs: seq<Node>): Result<Node, PassError> {
    match WithChildren(n, cs)
    case Some(m) => Ok(m)
    case None => Err(Malformed(KindOf(n)))
  }

  /**
   * Visit `n` with `v` in state `s`: prune if the kind is not in the visit
   * set, call Enter, rewrite the children left to right, rebuild, call
   * Visit on the rebuilt node and Leave on the original node.  `prune`
   * switches the pruning off, to state that it changes nothing.
   */
  function Rw<S>(v: Visitor<S>, s: S, n: Node, prune: bool): Result<(S, Node), PassError>
    decreases NodeSize(n), 2
  {
    if prune && !Visits(VisitSetOf(v), KindOf(n)) then Ok((s, n))
    else RwVisited(v, s, n, prune)
  }

  function RwVisited<S>(v: Visitor<S>, s: S, n: Node, prune: bool): Result<(S, Node), PassError>
    decreases NodeSize(n), 1
  {
    var k := KindOf(n);
    var s1 :- if k in v.enterKinds then v.enter(s, n) else Ok(s);
    var r :- (ChildrenSmaller(n); RwList(v, s1, Children(n), prune, n));
    RwFinish(v, n, r.0, r.1)
  }

  /** Rebuild `n` from its rewritten children, then call Visit and Leave. */
  function RwFinish<S>(v: Visitor<S>, n: Node, s: S, cs: seq<Node>): Result<(S, Node), PassError> {
    var k := KindOf(n);
    var rebuilt :- Rebuild(n, cs);
    var w :- if k in v.visitKinds then v.visit(s, rebuilt) else Ok((s, rebuilt));
    Ok((if k in v.leaveKinds then v.leave(w.0, n) else w.0, w.1))
  }

  function RwList<S>(v: Visitor<S>, s: S, cs: seq<Node>, prune: bool, ghost parent: Node): Result<(S, seq<Node>), PassError>
    requires forall c :: c in cs ==> NodeSize(c) < NodeSize(parent)
    decreases NodeSize(parent), 0, |cs|
  {
    if cs == [] then Ok((s, []))
    else
      var a :- Rw(v, s, cs[0], prune);
      var b :- RwList(v, a.0, cs[1..], prune, parent);
      Ok((b.0, [a.1] + b.1))
  }

  /** Rewriting a one-element list rewrites its element. */
  lemma RwListSingle<S>(v: Visitor<S>, s: S, c: Node, prune: bool, parent: Node)
    requires NodeSize(c) < NodeSize(parent)
    ensures RwList(v, s, [c], prune, parent) == match Rw(v, s, c, prune)
      case Ok(a) => Ok((a.0, [a.1]))
      case Err(e) => Err(e)
  {
    assert [c][0] == c && [c][1..] == [];
    var a := Rw(v, s, c, prune);
    if a.Ok? {
      assert RwList(v, a.value.0, [c][1..], prune, parent) == Ok((a.value.0, []));
      assert [a.value.1] + [] == [a.value.1];
    }
  }

  /** `node.Visit(visitor)` */
  function Apply<S>(v: Visitor<S>, s: S, n: Node): Result<(S, Node), PassError> {
    Rw(v, s, n, true)
  }

  // ---------------------------------------------------------------------
  // Pruning is sound

  /** Some node of a kind in `ks` occurs in the tree rooted at `n`. */
  predicate OccursIn(ks: set<Kind>, n: Node)
    decreases NodeSize(n)
  {
    KindOf(n) in ks || (ChildrenSmaller(n); exists c :: c in Children(n) && OccursIn(ks, c))
  }

  lemma {:induction false} OccursReachable(ks: set<Kind>, n: Node)
    requires OccursIn(ks, n)
    ensures exists h :: h in ks && h in Closure({KindOf(n)})
    decreases NodeSize(n)
  {
    if KindOf(n) !in ks {
      ChildrenSmaller(n);
      var c :| c in Children(n) && OccursIn(ks, c);
      OccursReachable(ks, c);
      var h :| h in ks && h in Closure({KindOf(c)});
      ChildKinds(n);
      var top := Closure({KindOf(n)});
      assert KindOf(c) in Succ(top);
      ClosureLeast({KindOf(c)}, top);
    }
  }

  /** A tree holding no handled kind comes back unchanged, with the state untouched. */
  lemma {:induction false} Untouched<S>(v: Visitor<S>, s: S, n: Node)
    requires !OccursIn(Handled(v), n)
    ensures Rw(v, s, n, false) == Ok((s, n))
    decreases NodeSize(n), 2
  {
    ChildrenSmaller(n);
    UntouchedList(v, s, Children(n), n);
    WithOwnChildren(n);
  }

  lemma {:induction false} UntouchedList<S>(v: Visitor<S>, s: S, cs: seq<Node>, parent: Node)
    requires forall c :: c in cs ==> NodeSize(c) < NodeSize(parent)
    requires forall c :: c in cs ==> !OccursIn(Handled(v), c)
    ensures RwList(v, s, cs, false, parent) == Ok((s, cs))
    decreases NodeSize(parent), 0, |cs|
  {
    if cs != [] {
      Untouched(v, s, cs[0]);
      UntouchedList(v, s, cs[1..], parent);
      assert [cs[0]] + cs[1..] == cs;
    }
  }

  /** Skipping the kinds outside the visit set never changes the outcome of a traversal. */
  lemma {:induction false} PruningSound<S>(v: Visitor<S>, s: S, n: Node)
    ensures Rw(v, s, n, true) == Rw(v, s, n, false)
    decreases NodeSize(n), 2
  {
    if !Visits(VisitSetOf(v), KindOf(n)) {
      PrunedUntouched(v, s, n);
    } else {
      var e := if KindOf(n) in v.enterKinds then v.enter(s, n) else Ok(s);
      if e.Ok? {
        ChildrenSmaller(n);
        PruningSoundList(v, e.value, Children(n), n);
      }
    }
  }

  /** A node outside the visit set holds no handled kind, so the full traversal leaves it alone too. */
  lemma PrunedUntouched<S>(v: Visitor<S>, s: S, n: Node)
    requires !Visits(VisitSetOf(v), KindOf(n))
    ensures Rw(v, s, n, false) == Ok((s, n))
  {
    if OccursIn(Handled(v), n) {
      OccursReachable(Handled(v), n);
      VisitSetMeaning(v, KindOf(n));
      assert false;
    }
    Untouched(v, s, n);
  }

  lemma {:induction false} PruningSoundList<S>(v: Visitor<S>, s: S, cs: seq<Node>, parent: Node)
    requires forall c :: c in cs ==> NodeSize(c) < NodeSize(parent)
    ensures RwList(v, s, cs, true, parent) == RwList(v, s, cs, false, parent)
    decreases NodeSize(parent), 0, |cs|
  {
    if cs != [] {
      PruningSound(v, s, cs[0]);
      var a := Rw(v, s, cs[0], true);
      if a.Ok? {
        PruningSoundList(v, a.value.0, cs[1..], parent);
      }
    }
  }
}
