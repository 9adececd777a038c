/**
 * Facts about the traversal engine that the passes share: what an
 * Enter-only visitor computes, and what a stateless visitor that only
 * rewrites type nodes computes.
 */
module Traversal {
  import opened Wrappers
  import opened Pytd
  import opened Visit

  /** Every node of the tree rooted at `n`, parents before children, children left to right. */
  function Preorder(n: Node): seq<Node>
    decreases NodeSize(n), 1
  {
    [n] + (ChildrenSmaller(n); PreorderList(Children(n), n))
  }

  function PreorderList(cs: seq<Node>, ghost parent: Node): seq<Node>
    requires forall c :: c in cs ==> NodeSize(c) < NodeSize(parent)
    decreases NodeSize(parent), 0, |cs|
  {
    if cs == [] then [] else Preorder(cs[0]) + PreorderList(cs[1..], parent)
  }

  // ---------------------------------------------------------------------
  // Enter-only visitors

  predicate EnterOnly<S>(v: Visitor<S>) {
    v.visitKinds == {} && v.leaveKinds == {}
  }

  /** Run the Enter hook over `ns` in order, stopping at the first exception. */
  function FoldEnter<S>(v: Visitor<S>, s: S, ns: seq<Node>): Result<S, PassError> {
    if ns == [] then Ok(s)
    else
      var s1 :- if KindOf(ns[0]) in v.enterKinds then v.enter(s, ns[0]) else Ok(s);
      FoldEnter(v, s1, ns[1..])
  }

  lemma {:induction false} FoldEnterAppend<S>(v: Visitor<S>, s: S, a: seq<Node>, b: seq<Node>)
    ensures FoldEnter(v, s, a + b) == (var r :- FoldEnter(v, s, a); FoldEnter(v, r, b))
  {
    if a == [] {
      assert a + b == b;
    } else {
      assert (a + b)[0] == a[0];
      assert (a + b)[1..] == a[1..] + b;
      var e := if KindOf(a[0]) in v.enterKinds then v.enter(s, a[0]) else Ok(s);
      if e.Ok? {
        FoldEnterAppend(v, e.value, a[1..], b);
        assert FoldEnter(v, s, a + b) == FoldEnter(v, e.value, a[1..] + b);
        assert FoldEnter(v, s, a) == FoldEnter(v, e.value, a[1..]);
      } else {
        assert FoldEnter(v, s, a + b) == Err(e.error);
        assert FoldEnter(v, s, a) == Err(e.error);
      }
    }
  }

  /** An Enter-only checker without state passes a node sequence iff each of its hooked nodes passes. */
  lemma {:induction false} FoldEnterCheck(v: Visitor<()>, ns: seq<Node>)
    ensures FoldEnter(v, (), ns).Ok? <==> forall i :: 0 <= i < |ns| && KindOf(ns[i]) in v.enterKinds ==> v.enter((), ns[i]).Ok?
  {
    if ns != [] {
      FoldEnterCheck(v, ns[1..]);
      assert forall i :: 1 <= i < |ns| ==> ns[i] == ns[1..][i - 1];
      var e := if KindOf(ns[0]) in v.enterKinds then v.enter((), ns[0]) else Ok(());
      if e.Ok? {
        assert e.value == ();
        assert FoldEnter(v, (), ns) == FoldEnter(v, (), ns[1..]);
      } else {
        assert FoldEnter(v, (), ns).Err?;
      }
    }
  }

  /** All the elements the Enter hook of a collecting visitor adds, node by node. */
  function Collected<X>(f: Node -> seq<X>, ns: seq<Node>): seq<X> {
    if ns == [] then [] else f(ns[0]) + Collected(f, ns[1..])
  }

  /**
   * An Enter hook that appends `f(n)` to its state for each hooked node
   * (and `f` gives nothing for the others) folds to everything collected.
   */
  lemma {:induction false} FoldEnterCollects<X>(v: Visitor<seq<X>>, f: Node -> seq<X>, s: seq<X>, ns: seq<Node>)
    requires forall t, m :: KindOf(m) in v.enterKinds ==> v.enter(t, m) == Ok(t + f(m))
    requires forall m :: KindOf(m) !in v.enterKinds ==> f(m) == []
    ensures FoldEnter(v, s, ns) == Ok(s + Collected(f, ns))
    decreases |ns|
  {
    if ns == [] {
      assert s + [] == s;
    } else {
      var s1 := s + f(ns[0]);
      if KindOf(ns[0]) !in v.enterKinds {
        assert s1 == s;
      }
      assert (if KindOf(ns[0]) in v.enterKinds then v.enter(s, ns[0]) else Ok(s)) == Ok(s1);
      FoldEnterCollects(v, f, s1, ns[1..]);
      assert s1 + Collected(f, ns[1..]) == s + (f(ns[0]) + Collected(f, ns[1..]));
    }
  }

  lemma {:induction false} CollectedMembers<X>(f: Node -> seq<X>, ns: seq<Node>, x: X)
    ensures x in Collected(f, ns) <==> exists i :: 0 <= i < |ns| && x in f(ns[i])
    decreases |ns|
  {
    if ns != [] {
      CollectedMembers(f, ns[1..], x);
      if x in Collected(f, ns[1..]) {
        var i :| 0 <= i < |ns[1..]| && x in f(ns[1..][i]);
        assert x in f(ns[i + 1]);
      }
      if exists i :: 0 <= i < |ns| && x in f(ns[i]) {
        var i :| 0 <= i < |ns| && x in f(ns[i]);
        if i > 0 {
          assert ns[i] == ns[1..][i - 1];
        }
      }
    }
  }

  function WithNode<S>(r: Result<S, PassError>, n: Node): Result<(S, Node), PassError> {
    match r
    case Ok(s) => Ok((s, n))
    case Err(e) => Err(e)
  }

  function WithNodes<S>(r: Result<S, PassError>, cs: seq<Node>): Result<(S, seq<Node>), PassError> {
    match r
    case Ok(s) => Ok((s, cs))
    case Err(e) => Err(e)
  }

  /**
   * A visitor with only Enter hooks leaves the tree unchanged and computes
   * the left fold of its Enter hook over the pre-order node sequence.
   */
  lemma {:induction false} EnterOnlyIsFold<S>(v: Visitor<S>, s: S, n: Node)
    requires EnterOnly(v)
    ensures Apply(v, s, n) == WithNode(FoldEnter(v, s, Preorder(n)), n)
  {
    PruningSound(v, s, n);
    EnterOnlyIsFoldFull(v, s, n);
  }

  lemma {:induction false} EnterOnlyIsFoldFull<S>(v: Visitor<S>, s: S, n: Node)
    requires EnterOnly(v)
    ensures Rw(v, s, n, false) == WithNode(FoldEnter(v, s, Preorder(n)), n)
    decreases NodeSize(n), 1
  {
    ChildrenSmaller(n);
    var e := if KindOf(n) in v.enterKinds then v.enter(s, n) else Ok(s);
    FoldEnterAppend(v, s, [n], PreorderList(Children(n), n));
    assert FoldEnter(v, s, [n]) == e;
    if e.Ok? {
      EnterOnlyIsFoldList(v, e.value, Children(n), n);
      WithOwnChildren(n);
    }
  }

  lemma {:induction false} EnterOnlyIsFoldList<S>(v: Visitor<S>, s: S, cs: seq<Node>, parent: Node)
    requires EnterOnly(v)
    requires forall c :: c in cs ==> NodeSize(c) < NodeSize(parent)
    ensures RwList(v, s, cs, false, parent) == WithNodes(FoldEnter(v, s, PreorderList(cs, parent)), cs)
    decreases NodeSize(parent), 0, |cs|
  {
    if cs != [] {
      EnterOnlyIsFoldFull(v, s, cs[0]);
      FoldEnterAppend(v, s, Preorder(cs[0]), PreorderList(cs[1..], parent));
      var a := FoldEnter(v, s, Preorder(cs[0]));
      if a.Ok? {
        EnterOnlyIsFoldList(v, a.value, cs[1..], parent);
        assert [cs[0]] + cs[1..] == cs;
      }
    }
  }

  // ---------------------------------------------------------------------
  // Stateless visitors that rewrite type nodes

  lemma SameCategoriesSlice(a: seq<Node>, b: seq<Node>, i: int, j: int)
    requires SameCategories(a, b) && 0 <= i <= j <= |a|
    ensures SameCategories(a[i..j], b[i..j])
  {
    assert forall k :: 0 <= k < j - i ==> a[i..j][k] == a[i + k] && b[i..j][k] == b[i + k];
  }

  lemma TypesFit(cs: seq<Node>, ts: seq<Type>)
    requires SameCategories(cs, TypeNodes(ts))
    ensures AsTypes(cs).Some?
  {
    UnwrapFacts(cs, AsType);
  }

  lemma ParamsFit(cs: seq<Node>, ps: seq<Parameter>)
    requires SameCategories(cs, ParamNodes(ps))
    ensures Unwrap(cs, AsParam).Some?
  {
    UnwrapFacts(cs, AsParam);
  }

  lemma SigsFit(cs: seq<Node>, ss: seq<Signature>)
    requires SameCategories(cs, SigNodes(ss))
    ensures Unwrap(cs, AsSig).Some?
  {
    UnwrapFacts(cs, AsSig);
  }

  lemma FuncsFit(cs: seq<Node>, fs: seq<Function>)
    requires SameCategories(cs, FuncNodes(fs))
    ensures Unwrap(cs, AsFunc).Some?
  {
    UnwrapFacts(cs, AsFunc);
  }

  lemma ConstsFit(cs: seq<Node>, ks: seq<Constant>)
    requires SameCategories(cs, ConstNodes(ks))
    ensures Unwrap(cs, AsConst).Some?
  {
    UnwrapFacts(cs, AsConst);
  }

  lemma AliasesFit(cs: seq<Node>, als: seq<Alias>)
    requires SameCategories(cs, AliasNodes(als))
    ensures Unwrap(cs, AsAlias).Some?
  {
    UnwrapFacts(cs, AsAlias);
  }

  lemma ClassesFit(cs: seq<Node>, cls: seq<Class>)
    requires SameCategories(cs, ClassNodes(cls))
    ensures Unwrap(cs, AsClass).Some?
  {
    UnwrapFacts(cs, AsClass);
  }

  lemma OptTypeFits(cs: seq<Node>, o: Option<Type>)
    requires SameCategories(cs, OptTypeNodes(o))
    ensures AsOptType(cs, o.Some?).Some?
  {
    if o.Some? { assert cs[0].TypeNode?; }
  }

  lemma OptParamFits(cs: seq<Node>, o: Option<Parameter>)
    requires SameCategories(cs, OptParamNodes(o))
    ensures AsOptParam(cs, o.Some?).Some?
  {
    if o.Some? { assert cs[0].ParamNode?; }
  }

  lemma RebuildTypeFits(t: Type, cs: seq<Node>)
    requires SameCategories(cs, Children(TypeNode(t)))
    ensures RebuildType(t, cs).Some?
  {
    var ch := Children(TypeNode(t));
    match t
    case GenericType(_, ps) =>
      SameCategoriesSlice(cs, ch, 1, |cs|); assert ch[1..] == TypeNodes(ps); TypesFit(cs[1..], ps);
    case TupleType(_, ps) =>
      SameCategoriesSlice(cs, ch, 1, |cs|); assert ch[1..] == TypeNodes(ps); TypesFit(cs[1..], ps);
    case CallableType(_, ps) =>
      SameCategoriesSlice(cs, ch, 1, |cs|); assert ch[1..] == TypeNodes(ps); TypesFit(cs[1..], ps);
    case UnionType(ts) => TypesFit(cs, ts);
    case TypeParameter(_, constraints, b, _) =>
      var k := |constraints|;
      SameCategoriesSlice(cs, ch, 0, k);
      assert ch[0..k] == TypeNodes(constraints);
      assert cs[0..k] == cs[..k];
      TypesFit(cs[..k], constraints);
      SameCategoriesSlice(cs, ch, k, |cs|);
      assert ch[k..] == OptTypeNodes(b);
      assert cs[k..|cs|] == cs[k..];
      OptTypeFits(cs[k..], b);
    case NamedType(_) =>
    case ClassType(_, _) =>
    case FunctionType(_) =>
    case AnythingType =>
    case NothingType =>
  }

  // A piece of the new children, cut where the node's own children hold one field, unwraps to that field.

  lemma TypesPiece(cs: seq<Node>, ch: seq<Node>, i: int, j: int, piece: seq<Node>, ts: seq<Type>)
    requires SameCategories(cs, ch) && 0 <= i <= j <= |cs| && piece == cs[i..j] && ch[i..j] == TypeNodes(ts)
    ensures AsTypes(piece).Some?
  {
    SameCategoriesSlice(cs, ch, i, j);
    TypesFit(piece, ts);
  }

  lemma ParamsPiece(cs: seq<Node>, ch: seq<Node>, i: int, j: int, piece: seq<Node>, ps: seq<Parameter>)
    requires SameCategories(cs, ch) && 0 <= i <= j <= |cs| && piece == cs[i..j] && ch[i..j] == ParamNodes(ps)
    ensures Unwrap(piece, AsParam).Some?
  {
    SameCategoriesSlice(cs, ch, i, j);
    ParamsFit(piece, ps);
  }

  lemma FuncsPiece(cs: seq<Node>, ch: seq<Node>, i: int, j: int, piece: seq<Node>, fs: seq<Function>)
    requires SameCategories(cs, ch) && 0 <= i <= j <= |cs| && piece == cs[i..j] && ch[i..j] == FuncNodes(fs)
    ensures Unwrap(piece, AsFunc).Some?
  {
    SameCategoriesSlice(cs, ch, i, j);
    FuncsFit(piece, fs);
  }

  lemma ConstsPiece(cs: seq<Node>, ch: seq<Node>, i: int, j: int, piece: seq<Node>, ks: seq<Constant>)
    requires SameCategories(cs, ch) && 0 <= i <= j <= |cs| && piece == cs[i..j] && ch[i..j] == ConstNodes(ks)
    ensures Unwrap(piece, AsConst).Some?
  {
    SameCategoriesSlice(cs, ch, i, j);
    ConstsFit(piece, ks);
  }

  lemma ClassesPiece(cs: seq<Node>, ch: seq<Node>, i: int, j: int, piece: seq<Node>, cls: seq<Class>)
    requires SameCategories(cs, ch) && 0 <= i <= j <= |cs| && piece == cs[i..j] && ch[i..j] == ClassNodes(cls)
    ensures Unwrap(piece, AsClass).Some?
  {
    SameCategoriesSlice(cs, ch, i, j);
    ClassesFit(piece, cls);
  }

  lemma AliasesPiece(cs: seq<Node>, ch: seq<Node>, i: int, j: int, piece: seq<Node>, als: seq<Alias>)
    requires SameCategories(cs, ch) && 0 <= i <= j <= |cs| && piece == cs[i..j] && ch[i..j] == AliasNodes(als)
    ensures Unwrap(piece, AsAlias).Some?
  {
    SameCategoriesSlice(cs, ch, i, j);
    AliasesFit(piece, als);
  }

  lemma OptTypePiece(cs: seq<Node>, ch: seq<Node>, i: int, j: int, piece: seq<Node>, o: Option<Type>)
    requires SameCategories(cs, ch) && 0 <= i <= j <= |cs| && piece == cs[i..j] && ch[i..j] == OptTypeNodes(o)
    ensures AsOptType(piece, o.Some?).Some?
  {
    SameCategoriesSlice(cs, ch, i, j);
    OptTypeFits(piece, o);
  }

  lemma OptParamPiece(cs: seq<Node>, ch: seq<Node>, i: int, j: int, piece: seq<Node>, o: Option<Parameter>)
    requires SameCategories(cs, ch) && 0 <= i <= j <= |cs| && piece == cs[i..j] && ch[i..j] == OptParamNodes(o)
    ensures AsOptParam(piece, o.Some?).Some?
  {
    SameCategoriesSlice(cs, ch, i, j);
    OptParamFits(piece, o);
  }

  lemma RebuildSigFits(s: Signature, cs: seq<Node>)
    requires SameCategories(cs, Children(SigNode(s)))
    ensures RebuildSig(s, cs).Some?
  {
    var ch := Children(SigNode(s));
    var a := |s.params|;
    var b := a + OptLen(s.starargs);
    var c := b + OptLen(s.starstarargs);
    var d := c + 1 + |s.exceptions|;
    SigSlices(s);
    assert ch[0..a] == ch[..a] && ch[d..|cs|] == ch[d..];
    ParamsPiece(cs, ch, 0, a, cs[..a], s.params);
    OptParamPiece(cs, ch, a, b, cs[a..b], s.starargs);
    OptParamPiece(cs, ch, b, c, cs[b..c], s.starstarargs);
    assert SameCategory(cs[c], ch[c]);
    TypesPiece(cs, ch, c + 1, d, cs[c + 1..d], s.exceptions);
    TypesPiece(cs, ch, d, |cs|, cs[d..], s.template);
    SigFromSome(cs[..a], cs[a..b], s.starargs.Some?, cs[b..c], s.starstarargs.Some?, cs[c], cs[c + 1..d], cs[d..]);
  }

  lemma SigFromSome(ps: seq<Node>, sa: seq<Node>, hasSa: bool, ssa: seq<Node>, hasSsa: bool, ret: Node,
                    exc: seq<Node>, tmpl: seq<Node>)
    requires Unwrap(ps, AsParam).Some? && AsOptParam(sa, hasSa).Some? && AsOptParam(ssa, hasSsa).Some?
    requires ret.TypeNode? && AsTypes(exc).Some? && AsTypes(tmpl).Some?
    ensures SigFrom(ps, sa, hasSa, ssa, hasSsa, ret, exc, tmpl).Some?
  {
  }

  lemma RebuildClassFits(cl: Class, cs: seq<Node>)
    requires SameCategories(cs, Children(ClassNode(cl)))
    ensures RebuildClass(cl, cs).Some?
  {
    var ch := Children(ClassNode(cl));
    var a := OptLen(cl.metaclass);
    var b := a + |cl.parents|;
    var c := b + |cl.methods|;
    var d := c + |cl.constants|;
    ClassSlices(cl);
    assert ch[0..a] == ch[..a] && ch[d..|cs|] == ch[d..];
    OptTypePiece(cs, ch, 0, a, cs[..a], cl.metaclass);
    TypesPiece(cs, ch, a, b, cs[a..b], cl.parents);
    FuncsPiece(cs, ch, b, c, cs[b..c], cl.methods);
    ConstsPiece(cs, ch, c, d, cs[c..d], cl.constants);
    TypesPiece(cs, ch, d, |cs|, cs[d..], cl.template);
    ClassFromSome(cl.name, cs[..a], cl.metaclass.Some?, cs[a..b], cs[b..c], cs[c..d], cs[d..]);
  }

  lemma ClassFromSome(name: string, meta: seq<Node>, hasMeta: bool, parents: seq<Node>, methods: seq<Node>,
                      consts: seq<Node>, tmpl: seq<Node>)
    requires AsOptType(meta, hasMeta).Some? && AsTypes(parents).Some?
    requires Unwrap(methods, AsFunc).Some? && Unwrap(consts, AsConst).Some? && AsTypes(tmpl).Some?
    ensures ClassFrom(name, meta, hasMeta, parents, methods, consts, tmpl).Some?
  {
  }

  lemma RebuildUnitFits(u: TypeDeclUnit, cs: seq<Node>)
    requires SameCategories(cs, Children(UnitNode(u)))
    ensures RebuildUnit(u, cs).Some?
  {
    var ch := Children(UnitNode(u));
    var a := |u.constants|;
    var b := a + |u.typeParams|;
    var c := b + |u.classes|;
    var d := c + |u.functions|;
    UnitSlices(u);
    assert ch[0..a] == ch[..a] && ch[d..|cs|] == ch[d..];
    ConstsPiece(cs, ch, 0, a, cs[..a], u.constants);
    TypesPiece(cs, ch, a, b, cs[a..b], u.typeParams);
    ClassesPiece(cs, ch, b, c, cs[b..c], u.classes);
    FuncsPiece(cs, ch, c, d, cs[c..d], u.functions);
    AliasesPiece(cs, ch, d, |cs|, cs[d..], u.aliases);
    UnitFromSome(u.name, cs[..a], cs[a..b], cs[b..c], cs[c..d], cs[d..]);
  }

  lemma UnitFromSome(name: string, consts: seq<Node>, tps: seq<Node>, classes: seq<Node>, funcs: seq<Node>,
                     aliases: seq<Node>)
    requires Unwrap(consts, AsConst).Some? && AsTypes(tps).Some? && Unwrap(classes, AsClass).Some?
    requires Unwrap(funcs, AsFunc).Some? && Unwrap(aliases, AsAlias).Some?
    ensures UnitFrom(name, consts, tps, classes, funcs, aliases).Some?
  {
  }

  /** Children of the same categories always fit: rebuilding cannot fail. */
  lemma RebuildFits(n: Node, cs: seq<Node>)
    requires SameCategories(cs, Children(n))
    ensures WithChildren(n, cs).Some? && SameCategory(WithChildren(n, cs).value, n)
  {
    match n {
      case TypeNode(t) => RebuildTypeFits(t, cs);
      case ParamNode(p) =>
        SameCategoriesSlice(cs, Children(n), 1, |cs|);
        assert Children(n)[1..] == OptTypeNodes(p.mutated);
        OptTypeFits(cs[1..], p.mutated);
      case SigNode(s) => RebuildSigFits(s, cs);
      case FuncNode(f) => SigsFit(cs, f.signatures);
      case ConstNode(_) =>
      case AliasNode(_) =>
      case ClassNode(cl) => RebuildClassFits(cl, cs);
      case UnitNode(u) => RebuildUnitFits(u, cs);
    }
    SameKindSameCategory(WithChildren(n, cs).value, n);
  }

  // ---------------------------------------------------------------------
  // A rebuilt node has exactly the children it was rebuilt from

  lemma TypesUnwrapped(ns: seq<Node>)
    requires AsTypes(ns).Some?
    ensures TypeNodes(AsTypes(ns).value) == ns
  {
    UnwrapFacts(ns, AsType);
    assert forall i :: 0 <= i < |ns| ==> TypeNodes(AsTypes(ns).value)[i] == ns[i];
  }

  lemma ParamsUnwrapped(ns: seq<Node>)
    requires Unwrap(ns, AsParam).Some?
    ensures ParamNodes(Unwrap(ns, AsParam).value) == ns
  {
    UnwrapFacts(ns, AsParam);
    assert forall i :: 0 <= i < |ns| ==> ParamNodes(Unwrap(ns, AsParam).value)[i] == ns[i];
  }

  lemma SigsUnwrapped(ns: seq<Node>)
    requires Unwrap(ns, AsSig).Some?
    ensures SigNodes(Unwrap(ns, AsSig).value) == ns
  {
    UnwrapFacts(ns, AsSig);
    assert forall i :: 0 <= i < |ns| ==> SigNodes(Unwrap(ns, AsSig).value)[i] == ns[i];
  }

  lemma FuncsUnwrapped(ns: seq<Node>)
    requires Unwrap(ns, AsFunc).Some?
    ensures FuncNodes(Unwrap(ns, AsFunc).value) == ns
  {
    UnwrapFacts(ns, AsFunc);
    assert forall i :: 0 <= i < |ns| ==> FuncNodes(Unwrap(ns, AsFunc).value)[i] == ns[i];
  }

  lemma ConstsUnwrapped(ns: seq<Node>)
    requires Unwrap(ns, AsConst).Some?
    ensures ConstNodes(Unwrap(ns, AsConst).value) == ns
  {
    UnwrapFacts(ns, AsConst);
    assert forall i :: 0 <= i < |ns| ==> ConstNodes(Unwrap(ns, AsConst).value)[i] == ns[i];
  }

  lemma AliasesUnwrapped(ns: seq<Node>)
    requires Unwrap(ns, AsAlias).Some?
    ensures AliasNodes(Unwrap(ns, AsAlias).value) == ns
  {
    UnwrapFacts(ns, AsAlias);
    assert forall i :: 0 <= i < |ns| ==> AliasNodes(Unwrap(ns, AsAlias).value)[i] == ns[i];
  }

  lemma ClassesUnwrapped(ns: seq<Node>)
    requires Unwrap(ns, AsClass).Some?
    ensures ClassNodes(Unwrap(ns, AsClass).value) == ns
  {
    UnwrapFacts(ns, AsClass);
    assert forall i :: 0 <= i < |ns| ==> ClassNodes(Unwrap(ns, AsClass).value)[i] == ns[i];
  }

  lemma RebuiltTypeChildren(t: Type, cs: seq<Node>)
    requires |cs| == |Children(TypeNode(t))| && RebuildType(t, cs).Some?
    ensures Children(RebuildType(t, cs).value) == cs
  {
    if t.GenericType? || t.TupleType? || t.CallableType? {
      RebuiltCompoundChildren(t, cs);
    } else if t.UnionType? {
      TypesUnwrapped(cs);
    } else if t.TypeParameter? {
      RebuiltTypeParamChildren(t, cs);
    }
  }

  lemma RebuiltCompoundChildren(t: Type, cs: seq<Node>)
    requires t.GenericType? || t.TupleType? || t.CallableType?
    requires |cs| == |Children(TypeNode(t))| && RebuildType(t, cs).Some?
    ensures Children(RebuildType(t, cs).value) == cs
  {
    var ps := AsTypes(cs[1..]).value;
    TypesUnwrapped(cs[1..]);
    assert cs[0] == TypeNode(cs[0].t);
    assert cs == [TypeNode(cs[0].t)] + TypeNodes(ps);
  }

  lemma RebuiltTypeParamChildren(t: Type, cs: seq<Node>)
    requires t.TypeParameter?
    requires |cs| == |Children(TypeNode(t))| && RebuildType(t, cs).Some?
    ensures Children(RebuildType(t, cs).value) == cs
  {
    var k := |t.constraints|;
    TypesUnwrapped(cs[..k]);
    assert cs == cs[..k] + cs[k..];
  }

  lemma Glue5<X>(cs: seq<X>, a: nat, b: nat, c: nat, d: nat)
    requires a <= b <= c <= d <= |cs|
    ensures cs == cs[..a] + cs[a..b] + cs[b..c] + cs[c..d] + cs[d..]
  {
  }

  lemma OptParamUnwrapped(ns: seq<Node>, present: bool)
    requires AsOptParam(ns, present).Some?
    ensures OptParamNodes(AsOptParam(ns, present).value) == ns && AsOptParam(ns, present).value.Some? == present
  {
  }

  lemma OptTypeUnwrapped(ns: seq<Node>, present: bool)
    requires AsOptType(ns, present).Some?
    ensures OptTypeNodes(AsOptType(ns, present).value) == ns && AsOptType(ns, present).value.Some? == present
  {
  }

  /** A signature built from split children has exactly those children, field by field. */
  lemma SigFromValue(ps: seq<Node>, sa: seq<Node>, hasSa: bool, ssa: seq<Node>, hasSsa: bool, ret: Node,
                     exc: seq<Node>, tmpl: seq<Node>)
    requires SigFrom(ps, sa, hasSa, ssa, hasSsa, ret, exc, tmpl).Some?
    ensures var r := SigFrom(ps, sa, hasSa, ssa, hasSsa, ret, exc, tmpl).value.sig;
      ParamNodes(r.params) == ps && OptParamNodes(r.starargs) == sa && r.starargs.Some? == hasSa
      && OptParamNodes(r.starstarargs) == ssa && r.starstarargs.Some? == hasSsa && TypeNode(r.returnType) == ret
      && TypeNodes(r.exceptions) == exc && TypeNodes(r.template) == tmpl
  {
    ParamsUnwrapped(ps);
    OptParamUnwrapped(sa, hasSa);
    OptParamUnwrapped(ssa, hasSsa);
    TypesUnwrapped(exc);
    TypesUnwrapped(tmpl);
  }

  /** A class built from split children has exactly those children, field by field. */
  lemma ClassFromValue(name: string, meta: seq<Node>, hasMeta: bool, parents: seq<Node>, methods: seq<Node>,
                       consts: seq<Node>, tmpl: seq<Node>)
    requires ClassFrom(name, meta, hasMeta, parents, methods, consts, tmpl).Some?
    ensures var r := ClassFrom(name, meta, hasMeta, parents, methods, consts, tmpl).value.cls;
      r.name == name && OptTypeNodes(r.metaclass) == meta && r.metaclass.Some? == hasMeta
      && TypeNodes(r.parents) == parents && FuncNodes(r.methods) == methods
      && ConstNodes(r.constants) == consts && TypeNodes(r.template) == tmpl
  {
    OptTypeUnwrapped(meta, hasMeta);
    TypesUnwrapped(parents);
    FuncsUnwrapped(methods);
    ConstsUnwrapped(consts);
    TypesUnwrapped(tmpl);
  }

  /** A unit built from split children has exactly those children, field by field. */
  lemma UnitFromValue(name: string, consts: seq<Node>, tps: seq<Node>, classes: seq<Node>, funcs: seq<Node>,
                      aliases: seq<Node>)
    requires UnitFrom(name, consts, tps, classes, funcs, aliases).Some?
    ensures var r := UnitFrom(name, consts, tps, classes, funcs, aliases).value.u;
      r.name == name && ConstNodes(r.constants) == consts && TypeNodes(r.typeParams) == tps
      && ClassNodes(r.classes) == classes && FuncNodes(r.functions) == funcs && AliasNodes(r.aliases) == aliases
  {
    ConstsUnwrapped(consts);
    TypesUnwrapped(tps);
    ClassesUnwrapped(classes);
    FuncsUnwrapped(funcs);
    AliasesUnwrapped(aliases);
  }

  lemma RebuiltSigChildren(s: Signature, cs: seq<Node>)
    requires |cs| == |Children(SigNode(s))| && RebuildSig(s, cs).Some?
    ensures Children(RebuildSig(s, cs).value) == cs
  {
    var a := |s.params|;
    var b := a + OptLen(s.starargs);
    var c := b + OptLen(s.starstarargs);
    var d := c + 1 + |s.exceptions|;
    SigFromValue(cs[..a], cs[a..b], s.starargs.Some?, cs[b..c], s.starstarargs.Some?, cs[c], cs[c + 1..d], cs[d..]);
    SigGlue(RebuildSig(s, cs).value.sig, cs, a, b, c, d);
  }

  lemma SigGlue(r: Signature, cs: seq<Node>, a: nat, b: nat, c: nat, d: nat)
    requires a <= b <= c < d <= |cs|
    requires ParamNodes(r.params) == cs[..a] && OptParamNodes(r.starargs) == cs[a..b]
    requires OptParamNodes(r.starstarargs) == cs[b..c] && cs[c] == TypeNode(r.returnType)
    requires TypeNodes(r.exceptions) == cs[c + 1..d] && TypeNodes(r.template) == cs[d..]
    ensures Children(SigNode(r)) == cs
  {
    assert cs[c..d] == [cs[c]] + cs[c + 1..d];
    Glue5(cs, a, b, c, d);
  }

  lemma RebuiltClassChildren(cl: Class, cs: seq<Node>)
    requires |cs| == |Children(ClassNode(cl))| && RebuildClass(cl, cs).Some?
    ensures Children(RebuildClass(cl, cs).value) == cs
  {
    var a := OptLen(cl.metaclass);
    var b := a + |cl.parents|;
    var c := b + |cl.methods|;
    var d := c + |cl.constants|;
    ClassFromValue(cl.name, cs[..a], cl.metaclass.Some?, cs[a..b], cs[b..c], cs[c..d], cs[d..]);
    ClassGlue(RebuildClass(cl, cs).value.cls, cs, a, b, c, d);
  }

  lemma ClassGlue(r: Class, cs: seq<Node>, a: nat, b: nat, c: nat, d: nat)
    requires a <= b <= c <= d <= |cs|
    requires OptTypeNodes(r.metaclass) == cs[..a] && TypeNodes(r.parents) == cs[a..b]
    requires FuncNodes(r.methods) == cs[b..c] && ConstNodes(r.constants) == cs[c..d]
    requires TypeNodes(r.template) == cs[d..]
    ensures Children(ClassNode(r)) == cs
  {
    Glue5(cs, a, b, c, d);
  }

  lemma RebuiltUnitChildren(u: TypeDeclUnit, cs: seq<Node>)
    requires |cs| == |Children(UnitNode(u))| && RebuildUnit(u, cs).Some?
    ensures Children(RebuildUnit(u, cs).value) == cs
  {
    var a := |u.constants|;
    var b := a + |u.typeParams|;
    var c := b + |u.classes|;
    var d := c + |u.functions|;
    UnitFromValue(u.name, cs[..a], cs[a..b], cs[b..c], cs[c..d], cs[d..]);
    UnitGlue(RebuildUnit(u, cs).value.u, cs, a, b, c, d);
  }

  lemma UnitGlue(r: TypeDeclUnit, cs: seq<Node>, a: nat, b: nat, c: nat, d: nat)
    requires a <= b <= c <= d <= |cs|
    requires ConstNodes(r.constants) == cs[..a] && TypeNodes(r.typeParams) == cs[a..b]
    requires ClassNodes(r.classes) == cs[b..c] && FuncNodes(r.functions) == cs[c..d]
    requires AliasNodes(r.aliases) == cs[d..]
    ensures Children(UnitNode(r)) == cs
  {
    Glue5(cs, a, b, c, d);
  }

  /** Rebuilding is the inverse of taking the children. */
  lemma RebuiltChildren(n: Node, cs: seq<Node>)
    requires WithChildren(n, cs).Some?
    ensures Children(WithChildren(n, cs).value) == cs
  {
    match n {
      case TypeNode(t) => RebuiltTypeChildren(t, cs);
      case ParamNode(p) => assert cs == [cs[0]] + cs[1..];
      case SigNode(s) => RebuiltSigChildren(s, cs);
      case FuncNode(f) => SigsUnwrapped(cs);
      case ConstNode(_) => assert cs == [cs[0]];
      case AliasNode(_) => assert cs == [cs[0]];
      case ClassNode(cl) => RebuiltClassChildren(cl, cs);
      case UnitNode(u) => RebuiltUnitChildren(u, cs);
    }
  }

  // ---------------------------------------------------------------------
  // Rebuilding twice is rebuilding once: the node's own fields survive

  lemma RebuildTypeTwice(t: Type, cs1: seq<Node>, cs2: seq<Node>)
    requires |cs1| == |cs2| == |Children(TypeNode(t))| && RebuildType(t, cs1).Some?
    ensures WithChildren(RebuildType(t, cs1).value, cs2) == RebuildType(t, cs2)
  {
    RebuiltTypeChildren(t, cs1);
  }

  lemma RebuildSigTwice(s: Signature, cs1: seq<Node>, cs2: seq<Node>)
    requires |cs1| == |cs2| == |Children(SigNode(s))| && RebuildSig(s, cs1).Some?
    ensures WithChildren(RebuildSig(s, cs1).value, cs2) == RebuildSig(s, cs2)
  {
    var a := |s.params|;
    var b := a + OptLen(s.starargs);
    var c := b + OptLen(s.starstarargs);
    var d := c + 1 + |s.exceptions|;
    SigFromValue(cs1[..a], cs1[a..b], s.starargs.Some?, cs1[b..c], s.starstarargs.Some?, cs1[c], cs1[c + 1..d], cs1[d..]);
    RebuiltSigChildren(s, cs1);
    var r := RebuildSig(s, cs1).value.sig;
    assert |r.params| == |s.params| && OptLen(r.starargs) == OptLen(s.starargs);
    assert OptLen(r.starstarargs) == OptLen(s.starstarargs) && |r.exceptions| == |s.exceptions|;
    SigSameShape(s, r, cs2);
  }

  /** Rebuilding a signature only looks at how many parameters, exceptions and star-parameters it has. */
  lemma SigSameShape(s: Signature, r: Signature, cs: seq<Node>)
    requires |r.params| == |s.params| && |r.exceptions| == |s.exceptions| && |r.template| == |s.template|
    requires r.starargs.Some? == s.starargs.Some? && r.starstarargs.Some? == s.starstarargs.Some?
    requires |cs| == |Children(SigNode(s))|
    ensures |cs| == |Children(SigNode(r))| && RebuildSig(r, cs) == RebuildSig(s, cs)
  {
    var a := |s.params|;
    var b := a + OptLen(s.starargs);
    var c := b + OptLen(s.starstarargs);
    var d := c + 1 + |s.exceptions|;
    assert a == |r.params| && b == a + OptLen(r.starargs) && c == b + OptLen(r.starstarargs);
    assert d == c + 1 + |r.exceptions|;
    var x := SigFrom(cs[..a], cs[a..b], s.starargs.Some?, cs[b..c], s.starstarargs.Some?, cs[c], cs[c + 1..d], cs[d..]);
    assert RebuildSig(s, cs) == x;
    assert RebuildSig(r, cs) == x;
  }

  lemma RebuildClassTwice(cl: Class, cs1: seq<Node>, cs2: seq<Node>)
    requires |cs1| == |cs2| == |Children(ClassNode(cl))| && RebuildClass(cl, cs1).Some?
    ensures WithChildren(RebuildClass(cl, cs1).value, cs2) == RebuildClass(cl, cs2)
  {
    var a := OptLen(cl.metaclass);
    var b := a + |cl.parents|;
    var c := b + |cl.methods|;
    var d := c + |cl.constants|;
    ClassFromValue(cl.name, cs1[..a], cl.metaclass.Some?, cs1[a..b], cs1[b..c], cs1[c..d], cs1[d..]);
    RebuiltClassChildren(cl, cs1);
    var r := RebuildClass(cl, cs1).value.cls;
    assert |r.parents| == |cl.parents| && |r.methods| == |cl.methods| && |r.constants| == |cl.constants|;
    ClassSameShape(cl, r, cs2);
  }

  lemma ClassSameShape(cl: Class, r: Class, cs: seq<Node>)
    requires r.name == cl.name && r.metaclass.Some? == cl.metaclass.Some?
    requires |r.parents| == |cl.parents| && |r.methods| == |cl.methods| && |r.constants| == |cl.constants|
    requires |r.template| == |cl.template|
    requires |cs| == |Children(ClassNode(cl))|
    ensures |cs| == |Children(ClassNode(r))| && RebuildClass(r, cs) == RebuildClass(cl, cs)
  {
    assert OptLen(r.metaclass) == OptLen(cl.metaclass);
  }

  lemma RebuildUnitTwice(u: TypeDeclUnit, cs1: seq<Node>, cs2: seq<Node>)
    requires |cs1| == |cs2| == |Children(UnitNode(u))| && RebuildUnit(u, cs1).Some?
    ensures WithChildren(RebuildUnit(u, cs1).value, cs2) == RebuildUnit(u, cs2)
  {
    var a := |u.constants|;
    var b := a + |u.typeParams|;
    var c := b + |u.classes|;
    var d := c + |u.functions|;
    UnitFromValue(u.name, cs1[..a], cs1[a..b], cs1[b..c], cs1[c..d], cs1[d..]);
    var r := RebuildUnit(u, cs1).value.u;
    UnitSameShape(u, r, cs2);
  }

  lemma UnitSameShape(u: TypeDeclUnit, r: TypeDeclUnit, cs: seq<Node>)
    requires r.name == u.name && |r.constants| == |u.constants| && |r.typeParams| == |u.typeParams|
    requires |r.classes| == |u.classes| && |r.functions| == |u.functions| && |r.aliases| == |u.aliases|
    requires |cs| == |Children(UnitNode(u))|
    ensures |cs| == |Children(UnitNode(r))| && RebuildUnit(r, cs) == RebuildUnit(u, cs)
  {
  }

  /** A node rebuilt from `cs1` and then from `cs2` is the original rebuilt from `cs2`. */
  lemma RebuildTwice(n: Node, cs1: seq<Node>, cs2: seq<Node>)
    requires WithChildren(n, cs1).Some?
    ensures WithChildren(WithChildren(n, cs1).value, cs2) == WithChildren(n, cs2)
  {
    RebuiltChildren(n, cs1);
    if |cs2| == |cs1| {
      match n {
        case TypeNode(t) => RebuildTypeTwice(t, cs1, cs2);
        case ParamNode(p) =>
        case SigNode(s) => RebuildSigTwice(s, cs1, cs2);
        case FuncNode(f) =>
        case ConstNode(_) =>
        case AliasNode(_) =>
        case ClassNode(cl) => RebuildClassTwice(cl, cs1, cs2);
        case UnitNode(u) => RebuildUnitTwice(u, cs1, cs2);
      }
    }
  }

  /**
   * The reference meaning of a stateless pass with Visit hooks only:
   * rebuild every node bottom-up and replace each rebuilt node whose kind
   * is in `ks` by what `h` makes of it.  A hook may raise; a hook result
   * its parent cannot hold makes the parent's rebuild fail.
   */
  function MapNodes(h: Node -> Result<Node, PassError>, ks: set<Kind>, n: Node): Result<Node, PassError>
    decreases NodeSize(n), 1
  {
    ChildrenSmaller(n);
    var cs :- MapNodesList(h, ks, Children(n), n);
    var m :- Rebuild(n, cs);
    if KindOf(n) in ks then h(m) else Ok(m)
  }

  function MapNodesList(h: Node -> Result<Node, PassError>, ks: set<Kind>, cs: seq<Node>, ghost parent: Node)
    : Result<seq<Node>, PassError>
    requires forall c :: c in cs ==> NodeSize(c) < NodeSize(parent)
    decreases NodeSize(parent), 0, |cs|
  {
    if cs == [] then Ok([])
    else
      var a :- MapNodes(h, ks, cs[0]);
      var b :- MapNodesList(h, ks, cs[1..], parent);
      Ok([a] + b)
  }

  /** The visitor that calls `h` as the Visit hook of the kinds `ks` and keeps no state. */
  function NodeMapper<S>(h: Node -> Result<Node, PassError>, ks: set<Kind>): Visitor<S> {
    Visitor({}, ks, {}, false,
      (s: S, n: Node) => Ok(s),
      (s: S, n: Node) => WithState(h(n), s),
      (s: S, n: Node) => s)
  }

  function WithState<S, X>(r: Result<X, PassError>, s: S): Result<(S, X), PassError> {
    match r
    case Ok(x) => Ok((s, x))
    case Err(e) => Err(e)
  }

  /** A stateless visitor with Visit hooks only computes `MapNodes`, whatever its state. */
  lemma {:induction false} NodeMapperIsMap<S>(h: Node -> Result<Node, PassError>, ks: set<Kind>, s: S, n: Node)
    ensures Apply(NodeMapper<S>(h, ks), s, n) == WithState(MapNodes(h, ks, n), s)
  {
    PruningSound(NodeMapper<S>(h, ks), s, n);
    NodeMapperFull(h, ks, s, n);
  }

  lemma {:induction false} NodeMapperFull<S>(h: Node -> Result<Node, PassError>, ks: set<Kind>, s: S, n: Node)
    ensures Rw(NodeMapper<S>(h, ks), s, n, false) == WithState(MapNodes(h, ks, n), s)
    decreases NodeSize(n), 1
  {
    ChildrenSmaller(n);
    NodeMapperList(h, ks, s, Children(n), n);
  }

  lemma {:induction false} NodeMapperList<S>(h: Node -> Result<Node, PassError>, ks: set<Kind>, s: S,
                                             cs: seq<Node>, parent: Node)
    requires forall c :: c in cs ==> NodeSize(c) < NodeSize(parent)
    ensures RwList(NodeMapper<S>(h, ks), s, cs, false, parent) == WithState(MapNodesList(h, ks, cs, parent), s)
    decreases NodeSize(parent), 0, |cs|
  {
    if cs != [] {
      NodeMapperFull(h, ks, s, cs[0]);
      NodeMapperList(h, ks, s, cs[1..], parent);
    }
  }

  /** `h` never raises and never changes a node's category. */
  ghost predicate TotalHook(h: Node -> Result<Node, PassError>) {
    forall m :: h(m).Ok? && SameCategory(h(m).value, m)
  }

  /** A total hook cannot make a rebuild fail. */
  lemma {:induction false} MapNodesTotal(h: Node -> Result<Node, PassError>, ks: set<Kind>, n: Node)
    requires TotalHook(h)
    ensures MapNodes(h, ks, n).Ok? && SameCategory(MapNodes(h, ks, n).value, n)
    decreases NodeSize(n), 1
  {
    ChildrenSmaller(n);
    MapNodesListTotal(h, ks, Children(n), n);
    var cs := MapNodesList(h, ks, Children(n), n).value;
    RebuildFits(n, cs);
    var m := WithChildren(n, cs).value;
    assert h(m).Ok? && SameCategory(h(m).value, m);
  }

  lemma {:induction false} MapNodesListTotal(h: Node -> Result<Node, PassError>, ks: set<Kind>, cs: seq<Node>, parent: Node)
    requires TotalHook(h)
    requires forall c :: c in cs ==> NodeSize(c) < NodeSize(parent)
    ensures MapNodesList(h, ks, cs, parent).Ok? && SameCategories(MapNodesList(h, ks, cs, parent).value, cs)
    decreases NodeSize(parent), 0, |cs|
  {
    if cs != [] {
      MapNodesTotal(h, ks, cs[0]);
      MapNodesListTotal(h, ks, cs[1..], parent);
      var r := MapNodesList(h, ks, cs, parent).value;
      assert r[0] == MapNodes(h, ks, cs[0]).value && r[1..] == MapNodesList(h, ks, cs[1..], parent).value;
    }
  }

  /** The Visit hook that applies `g` to type nodes and leaves other nodes alone. */
  function TypeHook(g: Type -> Type): Node -> Result<Node, PassError> {
    (n: Node) => if n.TypeNode? then Ok(TypeNode(g(n.t))) else Ok(n)
  }

  lemma TypeHookTotal(g: Type -> Type)
    ensures TotalHook(TypeHook(g))
  {
  }

  /** Rewrite the type nodes of kinds `ks` with `g`, bottom-up; this cannot fail. */
  function MapTypes(g: Type -> Type, ks: set<Kind>, n: Node): (r: Node)
    ensures MapNodes(TypeHook(g), ks, n) == Ok(r) && SameCategory(r, n)
  {
    TypeHookTotal(g);
    MapNodesTotal(TypeHook(g), ks, n);
    MapNodes(TypeHook(g), ks, n).value
  }

  // ---------------------------------------------------------------------
  // Passes that rewrite leaf types only

  /** The type kinds without children. */
  const LeafKinds: set<Kind> := {KNamedType, KClassType, KFunctionType, KAnythingType, KNothingType}

  lemma LeafNoChildren(n: Node)
    requires KindOf(n) in LeafKinds
    ensures Children(n) == [] && WithChildren(n, []) == Some(n)
  {
    WithOwnChildren(n);
  }

  /** On a leaf of a hooked kind, the map is the hook itself. */
  lemma MapLeaf(h: Node -> Result<Node, PassError>, ks: set<Kind>, n: Node)
    requires KindOf(n) in ks && KindOf(n) in LeafKinds
    ensures MapNodes(h, ks, n) == h(n)
  {
    LeafNoChildren(n);
  }

  /** Hooks that agree on the hooked kinds give the same map. */
  lemma {:induction false} MapNodesAgree(h1: Node -> Result<Node, PassError>, h2: Node -> Result<Node, PassError>,
                                         ks: set<Kind>, n: Node)
    requires forall m :: KindOf(m) in ks ==> h1(m) == h2(m)
    ensures MapNodes(h1, ks, n) == MapNodes(h2, ks, n)
    decreases NodeSize(n), 1
  {
    ChildrenSmaller(n);
    MapNodesListAgree(h1, h2, ks, Children(n), n);
  }

  lemma {:induction false} MapNodesListAgree(h1: Node -> Result<Node, PassError>, h2: Node -> Result<Node, PassError>,
                                             ks: set<Kind>, cs: seq<Node>, parent: Node)
    requires forall m :: KindOf(m) in ks ==> h1(m) == h2(m)
    requires forall c :: c in cs ==> NodeSize(c) < NodeSize(parent)
    ensures MapNodesList(h1, ks, cs, parent) == MapNodesList(h2, ks, cs, parent)
    decreases NodeSize(parent), 0, |cs|
  {
    if cs != [] {
      MapNodesAgree(h1, h2, ks, cs[0]);
      MapNodesListAgree(h1, h2, ks, cs[1..], parent);
    }
  }

  /** Run `h1`, then `h2` on what it returned. */
  function Then(h1: Node -> Result<Node, PassError>, h2: Node -> Result<Node, PassError>): Node -> Result<Node, PassError> {
    (m: Node) => match h1(m) case Ok(x) => h2(x) case Err(e) => Err(e)
  }

  /**
   * Two leaf-rewriting passes over the same kinds, one after the other,
   * are one pass whose hook runs both, provided the first keeps the
   * rewritten leaves within those kinds.
   */
  lemma {:induction false} MapNodesCompose(h1: Node -> Result<Node, PassError>, h2: Node -> Result<Node, PassError>,
                                           ks: set<Kind>, n: Node)
    requires ks <= LeafKinds
    requires forall m :: KindOf(m) in ks && h1(m).Ok? ==> KindOf(h1(m).value) in ks
    ensures MapNodes(h1, ks, n).Ok? ==> MapNodes(h2, ks, MapNodes(h1, ks, n).value) == MapNodes(Then(h1, h2), ks, n)
    decreases NodeSize(n), 1
  {
    if MapNodes(h1, ks, n).Ok? {
      if KindOf(n) in ks {
        MapLeaf(h1, ks, n);
        MapLeaf(h2, ks, h1(n).value);
        MapLeaf(Then(h1, h2), ks, n);
      } else {
        ChildrenSmaller(n);
        var cs1 := MapNodesList(h1, ks, Children(n), n).value;
        var m1 := WithChildren(n, cs1).value;
        RebuiltChildren(n, cs1);
        ChildrenSmaller(m1);
        MapNodesListCompose(h1, h2, ks, Children(n), n, m1);
        var r2 := MapNodesList(Then(h1, h2), ks, Children(n), n);
        if r2.Ok? {
          RebuildTwice(n, cs1, r2.value);
        }
      }
    }
  }

  lemma {:induction false} MapNodesListCompose(h1: Node -> Result<Node, PassError>, h2: Node -> Result<Node, PassError>,
                                               ks: set<Kind>, cs: seq<Node>, parent: Node, parent2: Node)
    requires ks <= LeafKinds
    requires forall m :: KindOf(m) in ks && h1(m).Ok? ==> KindOf(h1(m).value) in ks
    requires forall c :: c in cs ==> NodeSize(c) < NodeSize(parent)
    requires MapNodesList(h1, ks, cs, parent).Ok?
    requires forall c :: c in MapNodesList(h1, ks, cs, parent).value ==> NodeSize(c) < NodeSize(parent2)
    ensures MapNodesList(h2, ks, MapNodesList(h1, ks, cs, parent).value, parent2) == MapNodesList(Then(h1, h2), ks, cs, parent)
    decreases NodeSize(parent), 0, |cs|
  {
    if cs != [] {
      var ds := MapNodesList(h1, ks, cs, parent).value;
      MapNodesCompose(h1, h2, ks, cs[0]);
      MapNodesListCompose(h1, h2, ks, cs[1..], parent, parent2);
      assert ds[0] == MapNodes(h1, ks, cs[0]).value;
      assert ds[1..] == MapNodesList(h1, ks, cs[1..], parent).value;
    }
  }

  // ---------------------------------------------------------------------
  // Properties of every node of a tree

  ghost predicate Everywhere(P: Node -> bool, n: Node) {
    forall m :: m in Preorder(n) ==> P(m)
  }

  lemma {:induction false} PreorderListMembers(cs: seq<Node>, parent: Node, m: Node)
    requires forall c :: c in cs ==> NodeSize(c) < NodeSize(parent)
    ensures m in PreorderList(cs, parent) <==> exists c :: c in cs && m in Preorder(c)
    decreases |cs|
  {
    if cs != [] {
      PreorderListMembers(cs[1..], parent, m);
      if m in PreorderList(cs[1..], parent) {
        var c :| c in cs[1..] && m in Preorder(c);
        assert c in cs;
      }
      if exists c :: c in cs && m in Preorder(c) {
        var c :| c in cs && m in Preorder(c);
        if c != cs[0] {
          assert c in cs[1..];
        }
      }
    }
  }

  /** A property holds everywhere in a tree iff it holds at the root and everywhere beneath each child. */
  lemma EverywhereStep(P: Node -> bool, n: Node)
    ensures Everywhere(P, n) <==> P(n) && forall c :: c in Children(n) ==> Everywhere(P, c)
  {
    ChildrenSmaller(n);
    var below := PreorderList(Children(n), n);
    assert Preorder(n) == [n] + below;
    if Everywhere(P, n) {
      forall c, m | c in Children(n) && m in Preorder(c)
        ensures P(m)
      {
        PreorderListMembers(Children(n), n, m);
        assert m in Preorder(n);
      }
    }
    if P(n) && forall c :: c in Children(n) ==> Everywhere(P, c) {
      forall m | m in Preorder(n)
        ensures P(m)
      {
        if m != n {
          assert m in below;
          PreorderListMembers(Children(n), n, m);
        }
      }
    }
  }

  /**
   * A leaf-rewriting pass establishes a property `P` everywhere when the
   * property survives rebuilding the nodes it does not hook, holds at
   * those nodes already, and holds everywhere in each hook result.
   */
  lemma {:induction false} MapNodesEverywhere(h: Node -> Result<Node, PassError>, ks: set<Kind>, P: Node -> bool, n: Node)
    requires ks <= LeafKinds
    requires forall m, cs :: KindOf(m) !in ks && P(m) && WithChildren(m, cs).Some? ==> P(WithChildren(m, cs).value)
    requires forall m :: m in Preorder(n) && KindOf(m) !in ks ==> P(m)
    requires forall m :: m in Preorder(n) && KindOf(m) in ks && h(m).Ok? ==> Everywhere(P, h(m).value)
    ensures MapNodes(h, ks, n).Ok? ==> Everywhere(P, MapNodes(h, ks, n).value)
    decreases NodeSize(n)
  {
    if MapNodes(h, ks, n).Ok? {
      InOwnPreorder(n);
      if KindOf(n) in ks {
        MapLeaf(h, ks, n);
      } else {
        ChildrenSmaller(n);
        var cs := MapNodesList(h, ks, Children(n), n).value;
        MapNodesListLength(h, ks, Children(n), n);
        assert WithChildren(n, cs).Some?;
        var m := WithChildren(n, cs).value;
        MapNodesInner(h, ks, n, cs);
        RebuiltChildren(n, cs);
        ChildPreorders(n);
        forall i | 0 <= i < |cs|
          ensures Everywhere(P, cs[i])
        {
          var c := Children(n)[i];
          MapNodesListAt(h, ks, Children(n), n, i);
          MapNodesEverywhere(h, ks, P, c);
        }
        EverywhereStep(P, m);
      }
    }
  }

  /** A successful list map maps each element on its own. */
  lemma {:induction false} MapNodesListAt(h: Node -> Result<Node, PassError>, ks: set<Kind>, cs: seq<Node>, parent: Node, i: nat)
    requires forall c :: c in cs ==> NodeSize(c) < NodeSize(parent)
    requires MapNodesList(h, ks, cs, parent).Ok? && i < |cs|
    ensures |MapNodesList(h, ks, cs, parent).value| == |cs|
    ensures MapNodes(h, ks, cs[i]) == Ok(MapNodesList(h, ks, cs, parent).value[i])
    decreases |cs|
  {
    if i > 0 {
      MapNodesListAt(h, ks, cs[1..], parent, i - 1);
    } else {
      MapNodesListLength(h, ks, cs, parent);
    }
  }

  lemma {:induction false} MapNodesListLength(h: Node -> Result<Node, PassError>, ks: set<Kind>, cs: seq<Node>, parent: Node)
    requires forall c :: c in cs ==> NodeSize(c) < NodeSize(parent)
    requires MapNodesList(h, ks, cs, parent).Ok?
    ensures |MapNodesList(h, ks, cs, parent).value| == |cs|
    decreases |cs|
  {
    if cs != [] {
      MapNodesListLength(h, ks, cs[1..], parent);
    }
  }

  /** A leaf-rewriting pass succeeds when its hook succeeds on every hooked leaf and keeps its category. */
  lemma {:induction false} MapNodesOk(h: Node -> Result<Node, PassError>, ks: set<Kind>, n: Node)
    requires ks <= LeafKinds
    requires forall m :: m in Preorder(n) && KindOf(m) in ks ==> h(m).Ok? && SameCategory(h(m).value, m)
    ensures MapNodes(h, ks, n).Ok? && SameCategory(MapNodes(h, ks, n).value, n)
    decreases NodeSize(n), 1
  {
    InOwnPreorder(n);
    if KindOf(n) in ks {
      MapLeaf(h, ks, n);
    } else {
      ChildrenSmaller(n);
      ChildPreorders(n);
      MapNodesListOk(h, ks, Children(n), n, n);
      var cs := MapNodesList(h, ks, Children(n), n).value;
      RebuildFits(n, cs);
      MapNodesInner(h, ks, n, cs);
    }
  }

  lemma InOwnPreorder(n: Node)
    ensures n in Preorder(n)
  {
  }

  /** Every node beneath a child is beneath its parent. */
  lemma ChildPreorders(n: Node)
    ensures forall c, m :: c in Children(n) && m in Preorder(c) ==> m in Preorder(n)
  {
    ChildrenSmaller(n);
    forall c, m | c in Children(n) && m in Preorder(c)
      ensures m in Preorder(n)
    {
      PreorderListMembers(Children(n), n, m);
    }
  }

  /** The map at a node it does not hook rebuilds the node from the mapped children. */
  lemma MapNodesInner(h: Node -> Result<Node, PassError>, ks: set<Kind>, n: Node, cs: seq<Node>)
    requires KindOf(n) !in ks
    requires (ChildrenSmaller(n); MapNodesList(h, ks, Children(n), n) == Ok(cs))
    requires WithChildren(n, cs).Some?
    ensures MapNodes(h, ks, n) == Ok(WithChildren(n, cs).value)
  {
  }

  lemma {:induction false} MapNodesListOk(h: Node -> Result<Node, PassError>, ks: set<Kind>, cs: seq<Node>, parent: Node, root: Node)
    requires ks <= LeafKinds
    requires forall c :: c in cs ==> NodeSize(c) < NodeSize(parent)
    requires forall c, m :: c in cs && m in Preorder(c) ==> m in Preorder(root)
    requires forall m :: m in Preorder(root) && KindOf(m) in ks ==> h(m).Ok? && SameCategory(h(m).value, m)
    ensures MapNodesList(h, ks, cs, parent).Ok? && SameCategories(MapNodesList(h, ks, cs, parent).value, cs)
    decreases NodeSize(parent), 0, |cs|
  {
    if cs != [] {
      MapNodesOk(h, ks, cs[0]);
      MapNodesListOk(h, ks, cs[1..], parent, root);
      var r := MapNodesList(h, ks, cs, parent).value;
      assert r[0] == MapNodes(h, ks, cs[0]).value && r[1..] == MapNodesList(h, ks, cs[1..], parent).value;
    }
  }

  /** A hook that keeps categories makes the map fail only with one of its own exceptions. */
  lemma {:induction false} MapNodesKeeps(h: Node -> Result<Node, PassError>, ks: set<Kind>, n: Node)
    requires forall m :: h(m).Ok? ==> SameCategory(h(m).value, m)
    ensures MapNodes(h, ks, n).Ok? ==> SameCategory(MapNodes(h, ks, n).value, n)
    ensures MapNodes(h, ks, n).Err? ==> exists m :: h(m) == Err(MapNodes(h, ks, n).error)
    decreases NodeSize(n), 1
  {
    ChildrenSmaller(n);
    MapNodesListKeeps(h, ks, Children(n), n);
    var l := MapNodesList(h, ks, Children(n), n);
    if l.Ok? {
      RebuildFits(n, l.value);
      var m := WithChildren(n, l.value).value;
      if KindOf(n) in ks && h(m).Err? {
        assert h(m) == Err(MapNodes(h, ks, n).error);
      }
    }
  }

  lemma {:induction false} MapNodesListKeeps(h: Node -> Result<Node, PassError>, ks: set<Kind>, cs: seq<Node>, parent: Node)
    requires forall m :: h(m).Ok? ==> SameCategory(h(m).value, m)
    requires forall c :: c in cs ==> NodeSize(c) < NodeSize(parent)
    ensures MapNodesList(h, ks, cs, parent).Ok? ==> SameCategories(MapNodesList(h, ks, cs, parent).value, cs)
    ensures MapNodesList(h, ks, cs, parent).Err? ==> exists m :: h(m) == Err(MapNodesList(h, ks, cs, parent).error)
    decreases NodeSize(parent), 0, |cs|
  {
    if cs != [] {
      MapNodesKeeps(h, ks, cs[0]);
      MapNodesListKeeps(h, ks, cs[1..], parent);
      var r := MapNodesList(h, ks, cs, parent);
      if r.Ok? {
        assert r.value[0] == MapNodes(h, ks, cs[0]).value && r.value[1..] == MapNodesList(h, ks, cs[1..], parent).value;
      }
    }
  }

  // ---------------------------------------------------------------------
  // Passes that leave trees unchanged or are idempotent

  lemma {:induction false} MapNodesListFixed(h: Node -> Result<Node, PassError>, ks: set<Kind>, cs: seq<Node>, parent: Node)
    requires forall c :: c in cs ==> NodeSize(c) < NodeSize(parent)
    requires forall c :: c in cs ==> MapNodes(h, ks, c) == Ok(c)
    ensures MapNodesList(h, ks, cs, parent) == Ok(cs)
    decreases |cs|
  {
    if cs != [] {
      MapNodesListFixed(h, ks, cs[1..], parent);
      assert [cs[0]] + cs[1..] == cs;
    }
  }

  /** A node whose children the map keeps, and which the hook keeps if it applies, is kept. */
  lemma FixedAtNode(h: Node -> Result<Node, PassError>, ks: set<Kind>, n: Node)
    requires forall c :: c in Children(n) ==> MapNodes(h, ks, c) == Ok(c)
    requires KindOf(n) in ks ==> h(n) == Ok(n)
    ensures MapNodes(h, ks, n) == Ok(n)
  {
    ChildrenSmaller(n);
    MapNodesListFixed(h, ks, Children(n), n);
    WithOwnChildren(n);
  }

  /** A hook that returns every node it is handed unchanged leaves every tree unchanged. */
  lemma {:induction false} MapNodesIdentity(h: Node -> Result<Node, PassError>, ks: set<Kind>, n: Node)
    requires forall m :: KindOf(m) in ks ==> h(m) == Ok(m)
    ensures MapNodes(h, ks, n) == Ok(n)
    decreases NodeSize(n)
  {
    ChildrenSmaller(n);
    forall c | c in Children(n)
      ensures MapNodes(h, ks, c) == Ok(c)
    {
      MapNodesIdentity(h, ks, c);
    }
    FixedAtNode(h, ks, n);
  }

  /**
   * A hook that never raises, keeps the kind of the nodes it handles,
   * only reorders or drops their children, and gives the same result when
   * applied to its own result.
   */
  ghost predicate Rearranging(h: Node -> Result<Node, PassError>, ks: set<Kind>) {
    TotalHook(h) &&
    forall m :: KindOf(m) in ks ==>
      KindOf(h(m).value) == KindOf(m) && h(h(m).value) == h(m)
      && forall c :: c in Children(h(m).value) ==> c in Children(m)
  }

  /** A rearranging pass is idempotent: running it on its own output changes nothing. */
  lemma {:induction false} MapNodesIdempotent(h: Node -> Result<Node, PassError>, ks: set<Kind>, n: Node)
    requires Rearranging(h, ks)
    ensures MapNodes(h, ks, n).Ok? && MapNodes(h, ks, MapNodes(h, ks, n).value) == MapNodes(h, ks, n)
    decreases NodeSize(n)
  {
    MapNodesTotal(h, ks, n);
    ChildrenSmaller(n);
    MapNodesListTotal(h, ks, Children(n), n);
    var cs := MapNodesList(h, ks, Children(n), n).value;
    forall i | 0 <= i < |cs|
      ensures MapNodes(h, ks, cs[i]) == Ok(cs[i])
    {
      MapNodesListAt(h, ks, Children(n), n, i);
      MapNodesIdempotent(h, ks, Children(n)[i]);
    }
    RebuildFits(n, cs);
    var m := WithChildren(n, cs).value;
    RebuiltChildren(n, cs);
    assert MapNodes(h, ks, n) == if KindOf(n) in ks then h(m) else Ok(m);
    if KindOf(n) in ks {
      var r := h(m).value;
      forall c | c in Children(r)
        ensures MapNodes(h, ks, c) == Ok(c)
      {
        var i :| 0 <= i < |cs| && cs[i] == c;
      }
      FixedAtNode(h, ks, r);
    } else {
      FixedAtNode(h, ks, m);
    }
  }

  /** A tree holding no node of a hooked kind is left unchanged. */
  lemma {:induction false} MapNodesUntouched(h: Node -> Result<Node, PassError>, ks: set<Kind>, n: Node)
    requires !OccursIn(ks, n)
    ensures MapNodes(h, ks, n) == Ok(n)
    decreases NodeSize(n)
  {
    ChildrenSmaller(n);
    forall c | c in Children(n)
      ensures MapNodes(h, ks, c) == Ok(c)
    {
      MapNodesUntouched(h, ks, c);
    }
    FixedAtNode(h, ks, n);
  }

  /**
   * No node of a kind in `ks` lies beneath a node whose kind is in `within`,
   * when `within` is closed under the adjacency table and avoids `ks`.
   */
  lemma {:induction false} NotBeneath(ks: set<Kind>, within: set<Kind>, n: Node)
    requires KindOf(n) in within && within !! ks
    requires forall k :: k in within ==> Contains(k) <= within
    ensures !OccursIn(ks, n)
    decreases NodeSize(n)
  {
    ChildrenSmaller(n);
    ChildKinds(n);
    forall c | c in Children(n)
      ensures !OccursIn(ks, c)
    {
      NotBeneath(ks, within, c);
    }
  }

  // ---------------------------------------------------------------------
  // Hooks that rewrite only a node's own fields

  /**
   * `h` never raises, keeps every node's kind, and rewrites only the
   * node's own fields: rebuilding a node from other children and then
   * applying `h` is the same as applying `h` and then rebuilding.
   */
  ghost predicate OwnFieldsHook(h: Node -> Result<Node, PassError>) {
    KeepsKind(h) && CommutesWithRebuild(h)
  }

  ghost predicate KeepsKind(h: Node -> Result<Node, PassError>) {
    forall m :: h(m).Ok? && KindOf(h(m).value) == KindOf(m)
  }

  ghost predicate CommutesWithRebuild(h: Node -> Result<Node, PassError>)
    requires KeepsKind(h)
  {
    forall m, cs {:trigger h(WithChildren(m, cs).value)} :: WithChildren(m, cs).Some? ==>
      WithChildren(h(m).value, cs).Some?
      && h(WithChildren(m, cs).value) == Ok(WithChildren(h(m).value, cs).value)
  }

  lemma WithChildrenKind(n: Node, cs: seq<Node>)
    requires WithChildren(n, cs).Some?
    ensures KindOf(WithChildren(n, cs).value) == KindOf(n)
  {
  }

  lemma OwnFieldsTotal(h: Node -> Result<Node, PassError>)
    requires OwnFieldsHook(h)
    ensures TotalHook(h)
  {
    forall m ensures h(m).Ok? && SameCategory(h(m).value, m) {
      SameKindSameCategory(h(m).value, m);
    }
  }

  lemma OwnFieldsThen(h1: Node -> Result<Node, PassError>, h2: Node -> Result<Node, PassError>)
    requires OwnFieldsHook(h1) && OwnFieldsHook(h2)
    ensures OwnFieldsHook(Then(h1, h2))
  {
    var h := Then(h1, h2);
    forall m ensures h(m).Ok? && KindOf(h(m).value) == KindOf(m) {
      assert h(m) == h2(h1(m).value);
    }
    assert KeepsKind(h);
    forall m, cs | WithChildren(m, cs).Some?
      ensures WithChildren(h(m).value, cs).Some?
      ensures h(WithChildren(m, cs).value) == Ok(WithChildren(h(m).value, cs).value)
    {
      var m1 := h1(m).value;
      CommuteAt(h1, m, cs);
      CommuteAt(h2, m1, cs);
      assert h(WithChildren(m, cs).value) == h2(WithChildren(m1, cs).value);
      assert h(m) == h2(m1);
    }
  }

  /** The map of a hook that rewrites only own fields: the hooked node's own fields, rebuilt from the mapped children. */
  lemma MapNodesOwn(h: Node -> Result<Node, PassError>, ks: set<Kind>, n: Node)
    requires OwnFieldsHook(h)
    ensures (ChildrenSmaller(n); MapNodesList(h, ks, Children(n), n).Ok?)
    ensures var cs := (ChildrenSmaller(n); MapNodesList(h, ks, Children(n), n).value);
      var own := if KindOf(n) in ks then h(n).value else n;
      WithChildren(own, cs).Some? && MapNodes(h, ks, n) == Ok(WithChildren(own, cs).value)
      && SameCategories(cs, Children(n))
  {
    OwnFieldsTotal(h);
    ChildrenSmaller(n);
    MapNodesListTotal(h, ks, Children(n), n);
    var cs := MapNodesList(h, ks, Children(n), n).value;
    RebuildFits(n, cs);
    var m := WithChildren(n, cs).value;
    assert MapNodes(h, ks, n) == if KindOf(n) in ks then h(m) else Ok(m);
    if KindOf(n) in ks {
      CommuteAt(h, n, cs);
    }
  }

  lemma CommuteAt(h: Node -> Result<Node, PassError>, m: Node, cs: seq<Node>)
    requires OwnFieldsHook(h) && WithChildren(m, cs).Some?
    ensures WithChildren(h(m).value, cs).Some?
    ensures h(WithChildren(m, cs).value) == Ok(WithChildren(h(m).value, cs).value)
  {
  }

  /**
   * Two passes whose hooks rewrite only own fields, one after the other,
   * are one pass whose hook runs both.
   */
  lemma {:induction false} MapNodesThen(h1: Node -> Result<Node, PassError>, h2: Node -> Result<Node, PassError>,
                                        ks: set<Kind>, n: Node)
    requires OwnFieldsHook(h1) && OwnFieldsHook(h2)
    ensures MapNodes(h1, ks, n).Ok?
    ensures MapNodes(h2, ks, MapNodes(h1, ks, n).value) == MapNodes(Then(h1, h2), ks, n)
    decreases NodeSize(n), 1
  {
    OwnFieldsThen(h1, h2);
    var h := Then(h1, h2);
    MapNodesOwn(h1, ks, n);
    ChildrenSmaller(n);
    var cs1 := MapNodesList(h1, ks, Children(n), n).value;
    var own1 := if KindOf(n) in ks then h1(n).value else n;
    var r1 := WithChildren(own1, cs1).value;
    RebuiltChildren(own1, cs1);
    ChildrenSmaller(r1);
    MapNodesListThen(h1, h2, ks, Children(n), n, r1);
    ThenAtNode(h1, h2, ks, n, r1, cs1);
  }

  /** The induction step of `MapNodesThen`, once the children agree. */
  lemma ThenAtNode(h1: Node -> Result<Node, PassError>, h2: Node -> Result<Node, PassError>,
                   ks: set<Kind>, n: Node, r1: Node, cs1: seq<Node>)
    requires OwnFieldsHook(h1) && OwnFieldsHook(h2) && OwnFieldsHook(Then(h1, h2))
    requires WithChildren(if KindOf(n) in ks then h1(n).value else n, cs1) == Some(r1)
    requires (ChildrenSmaller(r1); ChildrenSmaller(n);
      MapNodesList(h2, ks, Children(r1), r1) == MapNodesList(Then(h1, h2), ks, Children(n), n))
    ensures MapNodes(h2, ks, r1) == MapNodes(Then(h1, h2), ks, n)
  {
    var h := Then(h1, h2);
    var own1 := if KindOf(n) in ks then h1(n).value else n;
    WithChildrenKind(own1, cs1);
    MapNodesOwn(h2, ks, r1);
    MapNodesOwn(h, ks, n);
    ChildrenSmaller(n);
    var cs12 := MapNodesList(h, ks, Children(n), n).value;
    ChildrenSmaller(r1);
    var cs2 := MapNodesList(h2, ks, Children(r1), r1).value;
    assert cs2 == cs12;
    var own2 := if KindOf(r1) in ks then h2(r1).value else r1;
    var ownh := if KindOf(n) in ks then h(n).value else n;
    assert MapNodes(h2, ks, r1) == Ok(WithChildren(own2, cs2).value);
    assert MapNodes(h, ks, n) == Ok(WithChildren(ownh, cs12).value);
    if KindOf(n) in ks {
      ThenHooked(h1, h2, n, cs1, cs12);
    } else {
      RebuildTwice(n, cs1, cs12);
    }
  }

  lemma ThenHooked(h1: Node -> Result<Node, PassError>, h2: Node -> Result<Node, PassError>,
                   n: Node, cs1: seq<Node>, cs12: seq<Node>)
    requires OwnFieldsHook(h1) && OwnFieldsHook(h2)
    requires WithChildren(h1(n).value, cs1).Some? && WithChildren(n, cs12).Some?
    ensures var r1 := WithChildren(h1(n).value, cs1).value;
      WithChildren(h2(r1).value, cs12) == WithChildren(Then(h1, h2)(n).value, cs12)
  {
    var o1 := h1(n).value;
    CommuteAt(h2, o1, cs1);
    var o2 := h2(o1).value;
    RebuildTwice(o2, cs1, cs12);
    assert Then(h1, h2)(n) == h2(o1);
  }

  lemma {:induction false} MapNodesListThen(h1: Node -> Result<Node, PassError>, h2: Node -> Result<Node, PassError>,
                                            ks: set<Kind>, cs: seq<Node>, parent: Node, parent2: Node)
    requires OwnFieldsHook(h1) && OwnFieldsHook(h2)
    requires forall c :: c in cs ==> NodeSize(c) < NodeSize(parent)
    requires MapNodesList(h1, ks, cs, parent).Ok?
    requires forall c :: c in MapNodesList(h1, ks, cs, parent).value ==> NodeSize(c) < NodeSize(parent2)
    ensures MapNodesList(h2, ks, MapNodesList(h1, ks, cs, parent).value, parent2) == MapNodesList(Then(h1, h2), ks, cs, parent)
    decreases NodeSize(parent), 0, |cs|
  {
    if cs != [] {
      var ds := MapNodesList(h1, ks, cs, parent).value;
      MapNodesThen(h1, h2, ks, cs[0]);
      MapNodesListThen(h1, h2, ks, cs[1..], parent, parent2);
      assert ds[0] == MapNodes(h1, ks, cs[0]).value;
      assert ds[1..] == MapNodesList(h1, ks, cs[1..], parent).value;
    }
  }

  /** A pass whose hook keeps every hooked node of the tree as it is leaves the tree unchanged. */
  lemma {:induction false} MapNodesFixedOn(h: Node -> Result<Node, PassError>, ks: set<Kind>, n: Node)
    requires forall m :: m in Preorder(n) && KindOf(m) in ks ==> h(m) == Ok(m)
    ensures MapNodes(h, ks, n) == Ok(n)
    decreases NodeSize(n)
  {
    ChildrenSmaller(n);
    ChildPreorders(n);
    InOwnPreorder(n);
    forall c | c in Children(n)
      ensures MapNodes(h, ks, c) == Ok(c)
    {
      MapNodesFixedOn(h, ks, c);
    }
    FixedAtNode(h, ks, n);
  }
}
