/**
 * The pytd intermediate representation: the immutable tree nodes that the
 * stub builder produces and that every pass rewrites.  Field order follows
 * pytd's node declarations, because stateful passes observe children in
 * that order.
 */
module Pytd {
  import opened Wrappers

  /**
   * The `cls` pointer of a ClassType.  The source stores a reference to a
   * Class node (creating cycles); here it is an address in a class arena:
   * the `index`-th class of the unit registered under `table`.
   */
  datatype ClassRef = Unresolved | Resolved(table: string, index: nat)

  datatype Type =
    | NamedType(name: string)
    | ClassType(name: string, cls: ClassRef)
    | FunctionType(name: string)
    | GenericType(base: Type, params: seq<Type>)
    | TupleType(base: Type, params: seq<Type>)
    /** `params` holds the argument types followed by the return type. */
    | CallableType(base: Type, params: seq<Type>)
    | UnionType(types: seq<Type>)
    | TypeParameter(name: string, constraints: seq<Type>, bound: Option<Type>, scope: Option<string>)
    | AnythingType
    | NothingType

  /**
   * `isinstance(t, pytd.GenericType)`: TupleType and CallableType are
   * subclasses of GenericType, so the test accepts all three.
   */
  predicate IsGeneric(t: Type) {
    t.GenericType? || t.TupleType? || t.CallableType?
  }

  datatype Parameter = Parameter(name: string, typ: Type, kwonly: bool, optional: bool, mutated: Option<Type>)

  datatype Signature = Signature(
    params: seq<Parameter>,
    starargs: Option<Parameter>,
    starstarargs: Option<Parameter>,
    returnType: Type,
    exceptions: seq<Type>,
    template: seq<Type>)

  datatype FunctionKind = Method | StaticMethod | ClassMethod

  datatype Function =
    | Function(name: string, signatures: seq<Signature>, kind: FunctionKind)
    | ExternalFunction(name: string, signatures: seq<Signature>, kind: FunctionKind)

  datatype Constant = Constant(name: string, typ: Type)

  datatype Alias = Alias(name: string, typ: Type)

  datatype Class = Class(
    name: string,
    metaclass: Option<Type>,
    parents: seq<Type>,
    methods: seq<Function>,
    constants: seq<Constant>,
    template: seq<Type>)

  datatype TypeDeclUnit = TypeDeclUnit(
    name: string,
    constants: seq<Constant>,
    typeParams: seq<Type>,
    classes: seq<Class>,
    functions: seq<Function>,
    aliases: seq<Alias>)

  /** Any node a visitor can be handed. */
  datatype Node =
    | TypeNode(t: Type)
    | ParamNode(p: Parameter)
    | SigNode(sig: Signature)
    | FuncNode(f: Function)
    | ConstNode(c: Constant)
    | AliasNode(a: Alias)
    | ClassNode(cls: Class)
    | UnitNode(u: TypeDeclUnit)

  /** The node classes, named as pytd names them. */
  datatype Kind =
    | KUnit | KConstant | KAlias | KClass | KFunction | KExternalFunction
    | KSignature | KParameter
    | KNamedType | KClassType | KFunctionType | KGenericType | KTupleType
    | KCallableType | KUnionType | KTypeParameter | KAnythingType | KNothingType

  const AllKinds: set<Kind> := {
    KUnit, KConstant, KAlias, KClass, KFunction, KExternalFunction,
    KSignature, KParameter,
    KNamedType, KClassType, KFunctionType, KGenericType, KTupleType,
    KCallableType, KUnionType, KTypeParameter, KAnythingType, KNothingType}

  lemma AllKindsComplete(k: Kind)
    ensures k in AllKinds
  {
  }

  function KindName(k: Kind): string {
    match k
    case KUnit => "TypeDeclUnit"
    case KConstant => "Constant"
    case KAlias => "Alias"
    case KClass => "Class"
    case KFunction => "Function"
    case KExternalFunction => "ExternalFunction"
    case KSignature => "Signature"
    case KParameter => "Parameter"
    case KNamedType => "NamedType"
    case KClassType => "ClassType"
    case KFunctionType => "FunctionType"
    case KGenericType => "GenericType"
    case KTupleType => "TupleType"
    case KCallableType => "CallableType"
    case KUnionType => "UnionType"
    case KTypeParameter => "TypeParameter"
    case KAnythingType => "AnythingType"
    case KNothingType => "NothingType"
  }

  function TypeKind(t: Type): Kind {
    match t
    case NamedType(_) => KNamedType
    case ClassType(_, _) => KClassType
    case FunctionType(_) => KFunctionType
    case GenericType(_, _) => KGenericType
    case TupleType(_, _) => KTupleType
    case CallableType(_, _) => KCallableType
    case UnionType(_) => KUnionType
    case TypeParameter(_, _, _, _) => KTypeParameter
    case AnythingType => KAnythingType
    case NothingType => KNothingType
  }

  function KindOf(n: Node): Kind {
    match n
    case TypeNode(t) => TypeKind(t)
    case ParamNode(_) => KParameter
    case SigNode(_) => KSignature
    case FuncNode(f) => if f.Function? then KFunction else KExternalFunction
    case ConstNode(_) => KConstant
    case AliasNode(_) => KAlias
    case ClassNode(_) => KClass
    case UnitNode(_) => KUnit
  }

  const TypeKinds: set<Kind> := {
    KNamedType, KClassType, KFunctionType, KGenericType, KTupleType,
    KCallableType, KUnionType, KTypeParameter, KAnythingType, KNothingType}

  /**
   * The kind-adjacency table: which kinds of node may appear directly
   * beneath a node of kind `k`.  It replaces the reflection over pytd's
   * node classes that the source performs.
   */
  function Contains(k: Kind): set<Kind> {
    match k
    case KUnit => TypeKinds + {KConstant, KClass, KFunction, KExternalFunction, KAlias}
    case KConstant => TypeKinds
    case KAlias => TypeKinds
    case KClass => TypeKinds + {KFunction, KExternalFunction, KConstant}
    case KFunction => {KSignature}
    case KExternalFunction => {KSignature}
    case KSignature => TypeKinds + {KParameter}
    case KParameter => TypeKinds
    case KGenericType => TypeKinds
    case KTupleType => TypeKinds
    case KCallableType => TypeKinds
    case KUnionType => TypeKinds
    case KTypeParameter => TypeKinds
    case _ => {}
  }

  // ---------------------------------------------------------------------
  // Children and rebuilding

  function Unwrap<X>(ns: seq<Node>, g: Node -> Option<X>): (r: Option<seq<X>>)
    ensures r.Some? ==> |r.value| == |ns|
  {
    if ns == [] then Some([])
    else match g(ns[0])
      case None => None
      case Some(x) => (match Unwrap(ns[1..], g) case None => None case Some(r) => Some([x] + r))
  }

  /** `Unwrap` succeeds iff `g` accepts every node, and then holds what `g` makes of each. */
  lemma {:induction false} UnwrapFacts<X>(ns: seq<Node>, g: Node -> Option<X>)
    ensures Unwrap(ns, g).Some? ==> forall i :: 0 <= i < |ns| ==> g(ns[i]) == Some(Unwrap(ns, g).value[i])
    ensures Unwrap(ns, g).Some? <==> forall i :: 0 <= i < |ns| ==> g(ns[i]).Some?
  {
    if ns != [] {
      UnwrapFacts(ns[1..], g);
      assert forall i :: 1 <= i < |ns| ==> ns[i] == ns[1..][i - 1];
    }
  }

  function AsType(n: Node): Option<Type> { if n.TypeNode? then Some(n.t) else None }
  function AsParam(n: Node): Option<Parameter> { if n.ParamNode? then Some(n.p) else None }
  function AsSig(n: Node): Option<Signature> { if n.SigNode? then Some(n.sig) else None }
  function AsFunc(n: Node): Option<Function> { if n.FuncNode? then Some(n.f) else None }
  function AsConst(n: Node): Option<Constant> { if n.ConstNode? then Some(n.c) else None }
  function AsAlias(n: Node): Option<Alias> { if n.AliasNode? then Some(n.a) else None }
  function AsClass(n: Node): Option<Class> { if n.ClassNode? then Some(n.cls) else None }

  function TypeNodes(ts: seq<Type>): (r: seq<Node>)
    ensures |r| == |ts| && forall i :: 0 <= i < |ts| ==> r[i] == TypeNode(ts[i])
  { seq(|ts|, i requires 0 <= i < |ts| => TypeNode(ts[i])) }

  function ParamNodes(ps: seq<Parameter>): (r: seq<Node>)
    ensures |r| == |ps| && forall i :: 0 <= i < |ps| ==> r[i] == ParamNode(ps[i])
  { seq(|ps|, i requires 0 <= i < |ps| => ParamNode(ps[i])) }

  function SigNodes(ss: seq<Signature>): (r: seq<Node>)
    ensures |r| == |ss| && forall i :: 0 <= i < |ss| ==> r[i] == SigNode(ss[i])
  { seq(|ss|, i requires 0 <= i < |ss| => SigNode(ss[i])) }

  function FuncNodes(fs: seq<Function>): (r: seq<Node>)
    ensures |r| == |fs| && forall i :: 0 <= i < |fs| ==> r[i] == FuncNode(fs[i])
  { seq(|fs|, i requires 0 <= i < |fs| => FuncNode(fs[i])) }

  function ConstNodes(cs: seq<Constant>): (r: seq<Node>)
    ensures |r| == |cs| && forall i :: 0 <= i < |cs| ==> r[i] == ConstNode(cs[i])
  { seq(|cs|, i requires 0 <= i < |cs| => ConstNode(cs[i])) }

  function AliasNodes(as_: seq<Alias>): (r: seq<Node>)
    ensures |r| == |as_| && forall i :: 0 <= i < |as_| ==> r[i] == AliasNode(as_[i])
  { seq(|as_|, i requires 0 <= i < |as_| => AliasNode(as_[i])) }

  function ClassNodes(cs: seq<Class>): (r: seq<Node>)
    ensures |r| == |cs| && forall i :: 0 <= i < |cs| ==> r[i] == ClassNode(cs[i])
  { seq(|cs|, i requires 0 <= i < |cs| => ClassNode(cs[i])) }

  function OptTypeNodes(o: Option<Type>): seq<Node> { if o.Some? then [TypeNode(o.value)] else [] }
  function OptParamNodes(o: Option<Parameter>): seq<Node> { if o.Some? then [ParamNode(o.value)] else [] }

  function AsTypes(ns: seq<Node>): Option<seq<Type>> { Unwrap(ns, AsType) }

  /** Nodes that `g` maps one by one onto `xs` unwrap to `xs`. */
  lemma UnwrapBack<X>(ns: seq<Node>, g: Node -> Option<X>, xs: seq<X>)
    requires |ns| == |xs| && forall i :: 0 <= i < |ns| ==> g(ns[i]) == Some(xs[i])
    ensures Unwrap(ns, g) == Some(xs)
  {
    UnwrapFacts(ns, g);
    assert Unwrap(ns, g).value == xs;
  }

  lemma TypesBack(ts: seq<Type>)
    ensures AsTypes(TypeNodes(ts)) == Some(ts)
  {
    UnwrapBack(TypeNodes(ts), AsType, ts);
  }

  lemma ParamsBack(ps: seq<Parameter>)
    ensures Unwrap(ParamNodes(ps), AsParam) == Some(ps)
  {
    UnwrapBack(ParamNodes(ps), AsParam, ps);
  }

  lemma SigsBack(ss: seq<Signature>)
    ensures Unwrap(SigNodes(ss), AsSig) == Some(ss)
  {
    UnwrapBack(SigNodes(ss), AsSig, ss);
  }

  lemma FuncsBack(fs: seq<Function>)
    ensures Unwrap(FuncNodes(fs), AsFunc) == Some(fs)
  {
    UnwrapBack(FuncNodes(fs), AsFunc, fs);
  }

  lemma ConstsBack(cs: seq<Constant>)
    ensures Unwrap(ConstNodes(cs), AsConst) == Some(cs)
  {
    UnwrapBack(ConstNodes(cs), AsConst, cs);
  }

  lemma AliasesBack(as_: seq<Alias>)
    ensures Unwrap(AliasNodes(as_), AsAlias) == Some(as_)
  {
    UnwrapBack(AliasNodes(as_), AsAlias, as_);
  }

  lemma ClassesBack(cs: seq<Class>)
    ensures Unwrap(ClassNodes(cs), AsClass) == Some(cs)
  {
    UnwrapBack(ClassNodes(cs), AsClass, cs);
  }

  /** An optional field's children: none when the field was absent, one type node when present. */
  function AsOptType(ns: seq<Node>, present: bool): Option<Option<Type>> {
    if !present then (if ns == [] then Some(None) else None)
    else if |ns| == 1 && ns[0].TypeNode? then Some(Some(ns[0].t))
    else None
  }

  function AsOptParam(ns: seq<Node>, present: bool): Option<Option<Parameter>> {
    if !present then (if ns == [] then Some(None) else None)
    else if |ns| == 1 && ns[0].ParamNode? then Some(Some(ns[0].p))
    else None
  }

  function OptLen<X>(o: Option<X>): nat { if o.Some? then 1 else 0 }

  /** The children of a node, in field order. Strings, flags and `cls` pointers are not nodes. */
  function Children(n: Node): seq<Node> {
    match n
    case TypeNode(t) => (
      match t
      case GenericType(b, ps) => [TypeNode(b)] + TypeNodes(ps)
      case TupleType(b, ps) => [TypeNode(b)] + TypeNodes(ps)
      case CallableType(b, ps) => [TypeNode(b)] + TypeNodes(ps)
      case UnionType(ts) => TypeNodes(ts)
      case TypeParameter(_, cs, b, _) => TypeNodes(cs) + OptTypeNodes(b)
      case _ => [])
    case ParamNode(p) => [TypeNode(p.typ)] + OptTypeNodes(p.mutated)
    case SigNode(s) =>
      ParamNodes(s.params) + OptParamNodes(s.starargs) + OptParamNodes(s.starstarargs)
      + [TypeNode(s.returnType)] + TypeNodes(s.exceptions) + TypeNodes(s.template)
    case FuncNode(f) => SigNodes(f.signatures)
    case ConstNode(c) => [TypeNode(c.typ)]
    case AliasNode(a) => [TypeNode(a.typ)]
    case ClassNode(c) =>
      OptTypeNodes(c.metaclass) + TypeNodes(c.parents) + FuncNodes(c.methods)
      + ConstNodes(c.constants) + TypeNodes(c.template)
    case UnitNode(u) =>
      ConstNodes(u.constants) + TypeNodes(u.typeParams)
      + ClassNodes(u.classes) + FuncNodes(u.functions) + AliasNodes(u.aliases)
  }

  function RebuildType(t: Type, cs: seq<Node>): (r: Option<Node>)
    requires |cs| == |Children(TypeNode(t))|
    ensures r.Some? ==> KindOf(r.value) == TypeKind(t)
  {
    match t
    case GenericType(_, ps) =>
      var b :- AsType(cs[0]); var ps' :- AsTypes(cs[1..]); Some(TypeNode(GenericType(b, ps')))
    case TupleType(_, ps) =>
      var b :- AsType(cs[0]); var ps' :- AsTypes(cs[1..]); Some(TypeNode(TupleType(b, ps')))
    case CallableType(_, ps) =>
      var b :- AsType(cs[0]); var ps' :- AsTypes(cs[1..]); Some(TypeNode(CallableType(b, ps')))
    case UnionType(ts) =>
      var ts' :- AsTypes(cs); Some(TypeNode(UnionType(ts')))
    case TypeParameter(name, constraints, bound, scope) =>
      var k := |constraints|;
      var cs' :- AsTypes(cs[..k]);
      var b' :- AsOptType(cs[k..], bound.Some?);
      Some(TypeNode(TypeParameter(name, cs', b', scope)))
    case _ => Some(TypeNode(t))
  }

  /** A signature from its children, already split by field. */
  function SigFrom(ps: seq<Node>, sa: seq<Node>, hasSa: bool, ssa: seq<Node>, hasSsa: bool, ret: Node,
                   exc: seq<Node>, tmpl: seq<Node>): (r: Option<Node>)
    ensures r.Some? ==> r.value.SigNode?
  {
    var ps' :- Unwrap(ps, AsParam);
    var sa' :- AsOptParam(sa, hasSa);
    var ssa' :- AsOptParam(ssa, hasSsa);
    var ret' :- AsType(ret);
    var exc' :- AsTypes(exc);
    var tmpl' :- AsTypes(tmpl);
    Some(SigNode(Signature(ps', sa', ssa', ret', exc', tmpl')))
  }

  function RebuildSig(s: Signature, cs: seq<Node>): (r: Option<Node>)
    requires |cs| == |Children(SigNode(s))|
    ensures r.Some? ==> r.value.SigNode?
  {
    var a := |s.params|;
    var b := a + OptLen(s.starargs);
    var c := b + OptLen(s.starstarargs);
    var d := c + 1 + |s.exceptions|;
    SigFrom(cs[..a], cs[a..b], s.starargs.Some?, cs[b..c], s.starstarargs.Some?, cs[c], cs[c + 1..d], cs[d..])
  }

  /** A class from its children, already split by field. */
  function ClassFrom(name: string, meta: seq<Node>, hasMeta: bool, parents: seq<Node>, methods: seq<Node>,
                     consts: seq<Node>, tmpl: seq<Node>): (r: Option<Node>)
    ensures r.Some? ==> r.value.ClassNode? && r.value.cls.name == name
  {
    var meta' :- AsOptType(meta, hasMeta);
    var parents' :- AsTypes(parents);
    var methods' :- Unwrap(methods, AsFunc);
    var consts' :- Unwrap(consts, AsConst);
    var tmpl' :- AsTypes(tmpl);
    Some(ClassNode(Class(name, meta', parents', methods', consts', tmpl')))
  }

  function RebuildClass(cl: Class, cs: seq<Node>): (r: Option<Node>)
    requires |cs| == |Children(ClassNode(cl))|
    ensures r.Some? ==> r.value.ClassNode? && r.value.cls.name == cl.name
  {
    var a := OptLen(cl.metaclass);
    var b := a + |cl.parents|;
    var c := b + |cl.methods|;
    var d := c + |cl.constants|;
    ClassFrom(cl.name, cs[..a], cl.metaclass.Some?, cs[a..b], cs[b..c], cs[c..d], cs[d..])
  }

  /** A unit from its children, already split by field. */
  function UnitFrom(name: string, consts: seq<Node>, tps: seq<Node>, classes: seq<Node>, funcs: seq<Node>,
                    aliases: seq<Node>): (r: Option<Node>)
    ensures r.Some? ==> r.value.UnitNode? && r.value.u.name == name
  {
    var consts' :- Unwrap(consts, AsConst);
    var tps' :- AsTypes(tps);
    var classes' :- Unwrap(classes, AsClass);
    var funcs' :- Unwrap(funcs, AsFunc);
    var aliases' :- Unwrap(aliases, AsAlias);
    Some(UnitNode(TypeDeclUnit(name, consts', tps', classes', funcs', aliases')))
  }

  function RebuildUnit(u: TypeDeclUnit, cs: seq<Node>): (r: Option<Node>)
    requires |cs| == |Children(UnitNode(u))|
    ensures r.Some? ==> r.value.UnitNode? && r.value.u.name == u.name
  {
    var a := |u.constants|;
    var b := a + |u.typeParams|;
    var c := b + |u.classes|;
    var d := c + |u.functions|;
    UnitFrom(u.name, cs[..a], cs[a..b], cs[b..c], cs[c..d], cs[d..])
  }

  /**
   * Rebuild `n` with new children `cs` (non-node fields are kept).  `None`
   * when the new children do not fit the node's fields: a visitor returned
   * a node of the wrong category, which pytd's precondition checks reject.
   */
  function WithChildren(n: Node, cs: seq<Node>): (r: Option<Node>)
    ensures r.Some? ==> KindOf(r.value) == KindOf(n)
  {
    if |cs| != |Children(n)| then None
    else match n
    case TypeNode(t) => RebuildType(t, cs)
    case ParamNode(p) =>
      var t :- AsType(cs[0]);
      var m :- AsOptType(cs[1..], p.mutated.Some?);
      Some(ParamNode(p.(typ := t, mutated := m)))
    case SigNode(s) => RebuildSig(s, cs)
    case FuncNode(f) =>
      var sigs :- Unwrap(cs, AsSig);
      Some(FuncNode(f.(signatures := sigs)))
    case ConstNode(k) =>
      var t :- AsType(cs[0]); Some(ConstNode(k.(typ := t)))
    case AliasNode(al) =>
      var t :- AsType(cs[0]); Some(AliasNode(al.(typ := t)))
    case ClassNode(cl) => RebuildClass(cl, cs)
    case UnitNode(u) => RebuildUnit(u, cs)
  }

  /** Two nodes of the same category: both types, both parameters, and so on. */
  predicate SameCategory(a: Node, b: Node) {
    (a.TypeNode? && b.TypeNode?) || (a.ParamNode? && b.ParamNode?) || (a.SigNode? && b.SigNode?)
    || (a.FuncNode? && b.FuncNode?) || (a.ConstNode? && b.ConstNode?) || (a.AliasNode? && b.AliasNode?)
    || (a.ClassNode? && b.ClassNode?) || (a.UnitNode? && b.UnitNode?)
  }

  predicate SameCategories(a: seq<Node>, b: seq<Node>) {
    |a| == |b| && forall i :: 0 <= i < |a| ==> SameCategory(a[i], b[i])
  }

  lemma SameKindSameCategory(a: Node, b: Node)
    requires KindOf(a) == KindOf(b)
    ensures SameCategory(a, b)
  {
  }

  lemma TypeOwnChildren(t: Type)
    ensures WithChildren(TypeNode(t), Children(TypeNode(t))) == Some(TypeNode(t))
  {
    var cs := Children(TypeNode(t));
    match t
    case GenericType(b, ps) => assert cs[1..] == TypeNodes(ps); TypesBack(ps);
    case TupleType(b, ps) => assert cs[1..] == TypeNodes(ps); TypesBack(ps);
    case CallableType(b, ps) => assert cs[1..] == TypeNodes(ps); TypesBack(ps);
    case UnionType(ts) => TypesBack(ts);
    case TypeParameter(_, constraints, bound, _) =>
      var k := |constraints|;
      assert cs[..k] == TypeNodes(constraints);
      assert cs[k..] == OptTypeNodes(bound);
      TypesBack(constraints);
    case _ =>
  }

  /** Slicing a concatenation of six parts gives back each part. */
  lemma Slices6<X>(p0: seq<X>, p1: seq<X>, p2: seq<X>, p3: seq<X>, p4: seq<X>, p5: seq<X>)
    ensures var s := p0 + p1 + p2 + p3 + p4 + p5;
      var a := |p0|; var b := a + |p1|; var c := b + |p2|; var d := c + |p3|; var e := d + |p4|;
      s[..a] == p0 && s[a..b] == p1 && s[b..c] == p2 && s[c..d] == p3 && s[d..e] == p4 && s[e..] == p5
  {
    var s := p0 + p1 + p2 + p3 + p4 + p5;
    var a := |p0|; var b := a + |p1|; var c := b + |p2|; var d := c + |p3|; var e := d + |p4|;
    assert s[..a] == p0;
    assert s[a..b] == p1;
    assert s[b..c] == p2;
    assert s[c..d] == p3;
    assert s[d..e] == p4;
    assert s[e..] == p5;
  }

  /** A signature rebuilt from its own children, split by field. */
  lemma SigFromOwn(s: Signature)
    ensures SigFrom(ParamNodes(s.params), OptParamNodes(s.starargs), s.starargs.Some?, OptParamNodes(s.starstarargs),
      s.starstarargs.Some?, TypeNode(s.returnType), TypeNodes(s.exceptions), TypeNodes(s.template)) == Some(SigNode(s))
  {
    ParamsBack(s.params);
    TypesBack(s.exceptions);
    TypesBack(s.template);
  }

  /** A signature's children, cut at its field boundaries, give back each field's nodes. */
  lemma SigSlices(s: Signature)
    ensures var cs := Children(SigNode(s)); var a := |s.params|; var b := a + OptLen(s.starargs);
      var c := b + OptLen(s.starstarargs); var d := c + 1 + |s.exceptions|;
      |cs| == d + |s.template| && cs[..a] == ParamNodes(s.params) && cs[a..b] == OptParamNodes(s.starargs)
      && cs[b..c] == OptParamNodes(s.starstarargs) && cs[c] == TypeNode(s.returnType)
      && cs[c + 1..d] == TypeNodes(s.exceptions) && cs[d..] == TypeNodes(s.template)
  {
    var cs := Children(SigNode(s));
    var a := |s.params|;
    var b := a + OptLen(s.starargs);
    var c := b + OptLen(s.starstarargs);
    var d := c + 1 + |s.exceptions|;
    Slices6(ParamNodes(s.params), OptParamNodes(s.starargs), OptParamNodes(s.starstarargs),
      [TypeNode(s.returnType)], TypeNodes(s.exceptions), TypeNodes(s.template));
    assert cs[..a] == ParamNodes(s.params);
    assert cs[a..b] == OptParamNodes(s.starargs);
    assert cs[b..c] == OptParamNodes(s.starstarargs);
    assert cs[c..c + 1] == [TypeNode(s.returnType)];
    assert cs[c + 1..d] == TypeNodes(s.exceptions);
    assert cs[d..] == TypeNodes(s.template);
    assert cs[c] == TypeNode(s.returnType);
  }

  lemma SigOwnChildren(s: Signature)
    ensures WithChildren(SigNode(s), Children(SigNode(s))) == Some(SigNode(s))
  {
    SigSlices(s);
    SigFromOwn(s);
  }

  /** A class rebuilt from its own children, split by field. */
  lemma ClassFromOwn(cl: Class)
    ensures ClassFrom(cl.name, OptTypeNodes(cl.metaclass), cl.metaclass.Some?, TypeNodes(cl.parents), FuncNodes(cl.methods),
      ConstNodes(cl.constants), TypeNodes(cl.template)) == Some(ClassNode(cl))
  {
    TypesBack(cl.parents);
    FuncsBack(cl.methods);
    ConstsBack(cl.constants);
    TypesBack(cl.template);
  }

  /** A class's children, cut at its field boundaries, give back each field's nodes. */
  lemma ClassSlices(cl: Class)
    ensures var cs := Children(ClassNode(cl)); var a := OptLen(cl.metaclass); var b := a + |cl.parents|;
      var c := b + |cl.methods|; var d := c + |cl.constants|;
      |cs| == d + |cl.template| && cs[..a] == OptTypeNodes(cl.metaclass) && cs[a..b] == TypeNodes(cl.parents)
      && cs[b..c] == FuncNodes(cl.methods) && cs[c..d] == ConstNodes(cl.constants) && cs[d..] == TypeNodes(cl.template)
  {
    var cs := Children(ClassNode(cl));
    var a := OptLen(cl.metaclass);
    var b := a + |cl.parents|;
    var c := b + |cl.methods|;
    var d := c + |cl.constants|;
    Slices6(OptTypeNodes(cl.metaclass), TypeNodes(cl.parents), FuncNodes(cl.methods),
      ConstNodes(cl.constants), TypeNodes(cl.template), []);
    assert cs == OptTypeNodes(cl.metaclass) + TypeNodes(cl.parents) + FuncNodes(cl.methods)
      + ConstNodes(cl.constants) + TypeNodes(cl.template) + [];
    assert cs[..a] == OptTypeNodes(cl.metaclass);
    assert cs[a..b] == TypeNodes(cl.parents);
    assert cs[b..c] == FuncNodes(cl.methods);
    assert cs[c..d] == ConstNodes(cl.constants);
    assert cs[d..] == TypeNodes(cl.template);
  }

  lemma ClassOwnChildren(cl: Class)
    ensures WithChildren(ClassNode(cl), Children(ClassNode(cl))) == Some(ClassNode(cl))
  {
    ClassSlices(cl);
    ClassFromOwn(cl);
  }

  /** A unit rebuilt from its own children, split by field. */
  lemma UnitFromOwn(u: TypeDeclUnit)
    ensures UnitFrom(u.name, ConstNodes(u.constants), TypeNodes(u.typeParams), ClassNodes(u.classes),
      FuncNodes(u.functions), AliasNodes(u.aliases)) == Some(UnitNode(u))
  {
    ConstsBack(u.constants);
    TypesBack(u.typeParams);
    ClassesBack(u.classes);
    FuncsBack(u.functions);
    AliasesBack(u.aliases);
  }

  /** A unit's children, cut at its field boundaries, give back each field's nodes. */
  lemma UnitSlices(u: TypeDeclUnit)
    ensures var cs := Children(UnitNode(u)); var a := |u.constants|; var b := a + |u.typeParams|;
      var c := b + |u.classes|; var d := c + |u.functions|;
      |cs| == d + |u.aliases| && cs[..a] == ConstNodes(u.constants) && cs[a..b] == TypeNodes(u.typeParams)
      && cs[b..c] == ClassNodes(u.classes) && cs[c..d] == FuncNodes(u.functions) && cs[d..] == AliasNodes(u.aliases)
  {
    var cs := Children(UnitNode(u));
    var a := |u.constants|;
    var b := a + |u.typeParams|;
    var c := b + |u.classes|;
    var d := c + |u.functions|;
    Slices6(ConstNodes(u.constants), TypeNodes(u.typeParams), ClassNodes(u.classes),
      FuncNodes(u.functions), AliasNodes(u.aliases), []);
    assert cs == ConstNodes(u.constants) + TypeNodes(u.typeParams) + ClassNodes(u.classes)
      + FuncNodes(u.functions) + AliasNodes(u.aliases) + [];
    assert cs[..a] == ConstNodes(u.constants);
    assert cs[a..b] == TypeNodes(u.typeParams);
    assert cs[b..c] == ClassNodes(u.classes);
    assert cs[c..d] == FuncNodes(u.functions);
    assert cs[d..] == AliasNodes(u.aliases);
  }

  lemma UnitOwnChildren(u: TypeDeclUnit)
    ensures WithChildren(UnitNode(u), Children(UnitNode(u))) == Some(UnitNode(u))
  {
    UnitSlices(u);
    UnitFromOwn(u);
  }

  /** Rebuilding a node from its own children gives the node back. */
  lemma WithOwnChildren(n: Node)
    ensures WithChildren(n, Children(n)) == Some(n)
  {
    match n
    case TypeNode(t) => TypeOwnChildren(t);
    case ParamNode(p) => assert Children(n)[1..] == OptTypeNodes(p.mutated);
    case SigNode(s) => SigOwnChildren(s);
    case FuncNode(f) => SigsBack(f.signatures);
    case ConstNode(_) =>
    case AliasNode(_) =>
    case ClassNode(cl) => ClassOwnChildren(cl);
    case UnitNode(u) => UnitOwnChildren(u);
  }

  /** Every node of a sequence has one of the kinds `ks`. */
  ghost predicate KindsIn(ns: seq<Node>, ks: set<Kind>) {
    forall c :: c in ns ==> KindOf(c) in ks
  }

  lemma TypeNodesKinds(ts: seq<Type>)
    ensures KindsIn(TypeNodes(ts), TypeKinds)
  {
    forall c | c in TypeNodes(ts)
      ensures KindOf(c) in TypeKinds
    {
      var i :| 0 <= i < |ts| && TypeNodes(ts)[i] == c;
    }
  }

  lemma NodesKinds(ns: seq<Node>, ks: set<Kind>)
    requires forall i :: 0 <= i < |ns| ==> KindOf(ns[i]) in ks
    ensures KindsIn(ns, ks)
  {
  }

  lemma KindsInJoin(a: seq<Node>, b: seq<Node>, ka: set<Kind>, kb: set<Kind>)
    requires KindsIn(a, ka) && KindsIn(b, kb)
    ensures KindsIn(a + b, ka + kb)
  {
    forall c | c in a + b
      ensures KindOf(c) in ka + kb
    {
      if c in a {
      } else {
        assert c in b;
      }
    }
  }

  lemma OptTypeNodesKinds(o: Option<Type>)
    ensures KindsIn(OptTypeNodes(o), TypeKinds)
  {
  }

  lemma KindsInSub(ns: seq<Node>, ks: set<Kind>, ks2: set<Kind>)
    requires KindsIn(ns, ks) && ks <= ks2
    ensures KindsIn(ns, ks2)
  {
  }

  lemma TypeChildKinds(t: Type)
    ensures KindsIn(Children(TypeNode(t)), TypeKinds)
  {
    match t
    case GenericType(b, ps) => TypeNodesKinds(ps); KindsInJoin([TypeNode(b)], TypeNodes(ps), TypeKinds, TypeKinds);
    case TupleType(b, ps) => TypeNodesKinds(ps); KindsInJoin([TypeNode(b)], TypeNodes(ps), TypeKinds, TypeKinds);
    case CallableType(b, ps) => TypeNodesKinds(ps); KindsInJoin([TypeNode(b)], TypeNodes(ps), TypeKinds, TypeKinds);
    case UnionType(ts) => TypeNodesKinds(ts);
    case TypeParameter(_, cs, b, _) =>
      TypeNodesKinds(cs); OptTypeNodesKinds(b); KindsInJoin(TypeNodes(cs), OptTypeNodes(b), TypeKinds, TypeKinds);
    case NamedType(_) =>
    case ClassType(_, _) =>
    case FunctionType(_) =>
    case AnythingType =>
    case NothingType =>
  }

  lemma SigChildKinds(sg: Signature)
    ensures KindsIn(Children(SigNode(sg)), Contains(KSignature))
  {
    var ps := ParamNodes(sg.params) + OptParamNodes(sg.starargs) + OptParamNodes(sg.starstarargs);
    var ts := [TypeNode(sg.returnType)] + TypeNodes(sg.exceptions) + TypeNodes(sg.template);
    NodesKinds(ps, {KParameter});
    TypeNodesKinds(sg.exceptions);
    TypeNodesKinds(sg.template);
    KindsInJoin([TypeNode(sg.returnType)], TypeNodes(sg.exceptions), TypeKinds, TypeKinds);
    KindsInJoin([TypeNode(sg.returnType)] + TypeNodes(sg.exceptions), TypeNodes(sg.template), TypeKinds, TypeKinds);
    KindsInJoin(ps, ts, {KParameter}, TypeKinds);
    assert Children(SigNode(sg)) == ps + ts;
    KindsInSub(Children(SigNode(sg)), {KParameter} + TypeKinds, Contains(KSignature));
  }

  lemma ClassChildKinds(cl: Class)
    ensures KindsIn(Children(ClassNode(cl)), Contains(KClass))
  {
    var fs := FuncNodes(cl.methods);
    var ks := ConstNodes(cl.constants);
    var fk: set<Kind> := {KFunction, KExternalFunction};
    NodesKinds(fs, fk);
    NodesKinds(ks, {KConstant});
    OptTypeNodesKinds(cl.metaclass);
    TypeNodesKinds(cl.parents);
    TypeNodesKinds(cl.template);
    KindsInJoin(OptTypeNodes(cl.metaclass), TypeNodes(cl.parents), TypeKinds, TypeKinds);
    KindsInJoin(OptTypeNodes(cl.metaclass) + TypeNodes(cl.parents), fs, TypeKinds, fk);
    KindsInJoin(OptTypeNodes(cl.metaclass) + TypeNodes(cl.parents) + fs, ks, TypeKinds + fk, {KConstant});
    KindsInJoin(OptTypeNodes(cl.metaclass) + TypeNodes(cl.parents) + fs + ks, TypeNodes(cl.template),
      TypeKinds + fk + {KConstant}, TypeKinds);
    KindsInSub(Children(ClassNode(cl)), TypeKinds + fk + {KConstant} + TypeKinds, Contains(KClass));
  }

  lemma UnitChildKinds(u: TypeDeclUnit)
    ensures KindsIn(Children(UnitNode(u)), Contains(KUnit))
  {
    var ks := ConstNodes(u.constants);
    var cs := ClassNodes(u.classes);
    var fs := FuncNodes(u.functions);
    var als := AliasNodes(u.aliases);
    var fk: set<Kind> := {KFunction, KExternalFunction};
    NodesKinds(ks, {KConstant});
    NodesKinds(cs, {KClass});
    NodesKinds(fs, fk);
    NodesKinds(als, {KAlias});
    TypeNodesKinds(u.typeParams);
    KindsInJoin(ks, TypeNodes(u.typeParams), {KConstant}, TypeKinds);
    KindsInJoin(ks + TypeNodes(u.typeParams), cs, {KConstant} + TypeKinds, {KClass});
    KindsInJoin(ks + TypeNodes(u.typeParams) + cs, fs, {KConstant} + TypeKinds + {KClass}, fk);
    KindsInJoin(ks + TypeNodes(u.typeParams) + cs + fs, als, {KConstant} + TypeKinds + {KClass} + fk, {KAlias});
    KindsInSub(Children(UnitNode(u)), {KConstant} + TypeKinds + {KClass} + fk + {KAlias}, Contains(KUnit));
  }

  /** Every child's kind is listed in the adjacency table under its parent's kind. */
  lemma ChildKinds(n: Node)
    ensures KindsIn(Children(n), Contains(KindOf(n)))
  {
    match n
    case TypeNode(t) =>
      TypeChildKinds(t);
      if Children(n) != [] {
        KindsInSub(Children(n), TypeKinds, Contains(KindOf(n)));
      }
    case ParamNode(p) =>
      OptTypeNodesKinds(p.mutated); KindsInJoin([TypeNode(p.typ)], OptTypeNodes(p.mutated), TypeKinds, TypeKinds);
    case SigNode(sg) => SigChildKinds(sg);
    case FuncNode(f) => NodesKinds(Children(n), {KSignature});
    case ConstNode(_) =>
    case AliasNode(_) =>
    case ClassNode(cl) => ClassChildKinds(cl);
    case UnitNode(u) => UnitChildKinds(u);
  }

  /** The name of a named node: a function, constant, alias, class or unit. */
  function NameOf(n: Node): Option<string> {
    match n
    case FuncNode(f) => Some(f.name)
    case ConstNode(c) => Some(c.name)
    case AliasNode(a) => Some(a.name)
    case ClassNode(c) => Some(c.name)
    case UnitNode(u) => Some(u.name)
    case _ => None
  }

  /** Rebuilding keeps a node's name. */
  lemma WithChildrenKeepsName(n: Node, cs: seq<Node>)
    requires WithChildren(n, cs).Some?
    ensures NameOf(WithChildren(n, cs).value) == NameOf(n)
  {
  }

  /** Rebuilding a type parameter keeps its name and scope. */
  lemma TypeParameterRebuilt(t: Type, cs: seq<Node>)
    requires t.TypeParameter? && WithChildren(TypeNode(t), cs).Some?
    ensures var r := WithChildren(TypeNode(t), cs).value;
      r.TypeNode? && r.t.TypeParameter? && r.t.name == t.name && r.t.scope == t.scope
  {
  }

  /** Where each field of a unit sits among its children. */
  lemma UnitConstantAt(u: TypeDeclUnit, i: nat)
    requires i < |u.constants|
    ensures i < |Children(UnitNode(u))| && Children(UnitNode(u))[i] == ConstNode(u.constants[i])
  {
  }

  lemma UnitTypeParamAt(u: TypeDeclUnit, i: nat)
    requires i < |u.typeParams|
    ensures var k := |u.constants| + i;
      k < |Children(UnitNode(u))| && Children(UnitNode(u))[k] == TypeNode(u.typeParams[i])
  {
  }

  lemma UnitClassAt(u: TypeDeclUnit, i: nat)
    requires i < |u.classes|
    ensures var k := |u.constants| + |u.typeParams| + i;
      k < |Children(UnitNode(u))| && Children(UnitNode(u))[k] == ClassNode(u.classes[i])
  {
  }

  lemma UnitFunctionAt(u: TypeDeclUnit, i: nat)
    requires i < |u.functions|
    ensures var k := |u.constants| + |u.typeParams| + |u.classes| + i;
      k < |Children(UnitNode(u))| && Children(UnitNode(u))[k] == FuncNode(u.functions[i])
  {
  }

  lemma UnitAliasAt(u: TypeDeclUnit, i: nat)
    requires i < |u.aliases|
    ensures var k := |u.constants| + |u.typeParams| + |u.classes| + |u.functions| + i;
      k < |Children(UnitNode(u))| && Children(UnitNode(u))[k] == AliasNode(u.aliases[i])
  {
  }

  /** Where the methods and constants of a class sit among its children. */
  lemma ClassMethodAt(cl: Class, i: nat)
    requires i < |cl.methods|
    ensures var k := OptLen(cl.metaclass) + |cl.parents| + i;
      k < |Children(ClassNode(cl))| && Children(ClassNode(cl))[k] == FuncNode(cl.methods[i])
  {
  }

  lemma ClassConstantAt(cl: Class, i: nat)
    requires i < |cl.constants|
    ensures var k := OptLen(cl.metaclass) + |cl.parents| + |cl.methods| + i;
      k < |Children(ClassNode(cl))| && Children(ClassNode(cl))[k] == ConstNode(cl.constants[i])
  {
  }

  /** A rebuilt unit has as many members of each sort as the original. */
  lemma RebuildUnitShape(u: TypeDeclUnit, cs: seq<Node>)
    requires WithChildren(UnitNode(u), cs).Some?
    ensures var r := WithChildren(UnitNode(u), cs).value;
      r.UnitNode?
      && |r.u.constants| == |u.constants| && |r.u.typeParams| == |u.typeParams| && |r.u.classes| == |u.classes|
      && |r.u.functions| == |u.functions| && |r.u.aliases| == |u.aliases|
  {
  }

  /** A rebuilt class has as many methods and constants as the original. */
  lemma RebuildClassShape(cl: Class, cs: seq<Node>)
    requires WithChildren(ClassNode(cl), cs).Some?
    ensures var r := WithChildren(ClassNode(cl), cs).value;
      r.ClassNode?
      && OptLen(r.cls.metaclass) == OptLen(cl.metaclass) && |r.cls.parents| == |cl.parents|
      && |r.cls.methods| == |cl.methods| && |r.cls.constants| == |cl.constants| && |r.cls.template| == |cl.template|
  {
  }

  // ---------------------------------------------------------------------
  // Sizes, for termination of traversals

  function TypeSize(t: Type): nat
    decreases t
  {
    match t
    case GenericType(b, ps) => 1 + TypeSize(b) + TypesSize(ps)
    case TupleType(b, ps) => 1 + TypeSize(b) + TypesSize(ps)
    case CallableType(b, ps) => 1 + TypeSize(b) + TypesSize(ps)
    case UnionType(ts) => 1 + TypesSize(ts)
    case TypeParameter(_, cs, b, _) => 1 + TypesSize(cs) + OptTypeSize(b)
    case _ => 1
  }

  function TypesSize(ts: seq<Type>): nat
    decreases ts
  {
    if ts == [] then 0 else TypeSize(ts[0]) + TypesSize(ts[1..])
  }

  function OptTypeSize(o: Option<Type>): nat
    decreases o
  {
    if o.Some? then TypeSize(o.value) else 0
  }

  function ParamSize(p: Parameter): nat { 1 + TypeSize(p.typ) + OptTypeSize(p.mutated) }

  function ParamsSize(ps: seq<Parameter>): nat {
    if ps == [] then 0 else ParamSize(ps[0]) + ParamsSize(ps[1..])
  }

  function OptParamSize(o: Option<Parameter>): nat { if o.Some? then ParamSize(o.value) else 0 }

  function SigSize(s: Signature): nat {
    1 + ParamsSize(s.params) + OptParamSize(s.starargs) + OptParamSize(s.starstarargs)
    + TypeSize(s.returnType) + TypesSize(s.exceptions) + TypesSize(s.template)
  }

  function SigsSize(ss: seq<Signature>): nat {
    if ss == [] then 0 else SigSize(ss[0]) + SigsSize(ss[1..])
  }

  function FuncSize(f: Function): nat { 1 + SigsSize(f.signatures) }

  function FuncsSize(fs: seq<Function>): nat {
    if fs == [] then 0 else FuncSize(fs[0]) + FuncsSize(fs[1..])
  }

  function ConstsSize(cs: seq<Constant>): nat {
    if cs == [] then 0 else 1 + TypeSize(cs[0].typ) + ConstsSize(cs[1..])
  }

  function AliasesSize(as_: seq<Alias>): nat {
    if as_ == [] then 0 else 1 + TypeSize(as_[0].typ) + AliasesSize(as_[1..])
  }

  function ClassSize(c: Class): nat {
    1 + OptTypeSize(c.metaclass) + TypesSize(c.parents) + FuncsSize(c.methods)
    + ConstsSize(c.constants) + TypesSize(c.template)
  }

  function ClassesSize(cs: seq<Class>): nat {
    if cs == [] then 0 else ClassSize(cs[0]) + ClassesSize(cs[1..])
  }

  function NodeSize(n: Node): nat {
    match n
    case TypeNode(t) => TypeSize(t)
    case ParamNode(p) => ParamSize(p)
    case SigNode(s) => SigSize(s)
    case FuncNode(f) => FuncSize(f)
    case ConstNode(c) => 1 + TypeSize(c.typ)
    case AliasNode(a) => 1 + TypeSize(a.typ)
    case ClassNode(c) => ClassSize(c)
    case UnitNode(u) =>
      1 + ConstsSize(u.constants) + TypesSize(u.typeParams) + ClassesSize(u.classes)
      + FuncsSize(u.functions) + AliasesSize(u.aliases)
  }

  lemma {:induction false} TypeInTypes(ts: seq<Type>, i: nat)
    requires i < |ts|
    ensures TypeSize(ts[i]) <= TypesSize(ts)
  {
    if i > 0 { TypeInTypes(ts[1..], i - 1); }
  }

  lemma {:induction false} ParamInParams(ps: seq<Parameter>, i: nat)
    requires i < |ps|
    ensures ParamSize(ps[i]) <= ParamsSize(ps)
  {
    if i > 0 { ParamInParams(ps[1..], i - 1); }
  }

  lemma {:induction false} SigInSigs(ss: seq<Signature>, i: nat)
    requires i < |ss|
    ensures SigSize(ss[i]) <= SigsSize(ss)
  {
    if i > 0 { SigInSigs(ss[1..], i - 1); }
  }

  lemma {:induction false} FuncInFuncs(fs: seq<Function>, i: nat)
    requires i < |fs|
    ensures FuncSize(fs[i]) <= FuncsSize(fs)
  {
    if i > 0 { FuncInFuncs(fs[1..], i - 1); }
  }

  lemma {:induction false} ConstInConsts(cs: seq<Constant>, i: nat)
    requires i < |cs|
    ensures 1 + TypeSize(cs[i].typ) <= ConstsSize(cs)
  {
    if i > 0 { ConstInConsts(cs[1..], i - 1); }
  }

  lemma {:induction false} AliasInAliases(as_: seq<Alias>, i: nat)
    requires i < |as_|
    ensures 1 + TypeSize(as_[i].typ) <= AliasesSize(as_)
  {
    if i > 0 { AliasInAliases(as_[1..], i - 1); }
  }

  lemma {:induction false} ClassInClasses(cs: seq<Class>, i: nat)
    requires i < |cs|
    ensures ClassSize(cs[i]) <= ClassesSize(cs)
  {
    if i > 0 { ClassInClasses(cs[1..], i - 1); }
  }

  lemma TypeNodesSmaller(ts: seq<Type>, bound: nat)
    requires TypesSize(ts) < bound
    ensures forall c :: c in TypeNodes(ts) ==> NodeSize(c) < bound
  {
    forall i | 0 <= i < |ts| ensures NodeSize(TypeNodes(ts)[i]) < bound { TypeInTypes(ts, i); }
  }

  lemma ParamNodesSmaller(ps: seq<Parameter>, bound: nat)
    requires ParamsSize(ps) < bound
    ensures forall c :: c in ParamNodes(ps) ==> NodeSize(c) < bound
  {
    forall i | 0 <= i < |ps| ensures NodeSize(ParamNodes(ps)[i]) < bound { ParamInParams(ps, i); }
  }

  lemma SigNodesSmaller(ss: seq<Signature>, bound: nat)
    requires SigsSize(ss) < bound
    ensures forall c :: c in SigNodes(ss) ==> NodeSize(c) < bound
  {
    forall i | 0 <= i < |ss| ensures NodeSize(SigNodes(ss)[i]) < bound { SigInSigs(ss, i); }
  }

  lemma FuncNodesSmaller(fs: seq<Function>, bound: nat)
    requires FuncsSize(fs) < bound
    ensures forall c :: c in FuncNodes(fs) ==> NodeSize(c) < bound
  {
    forall i | 0 <= i < |fs| ensures NodeSize(FuncNodes(fs)[i]) < bound { FuncInFuncs(fs, i); }
  }

  lemma ConstNodesSmaller(cs: seq<Constant>, bound: nat)
    requires ConstsSize(cs) < bound
    ensures forall c :: c in ConstNodes(cs) ==> NodeSize(c) < bound
  {
    forall i | 0 <= i < |cs| ensures NodeSize(ConstNodes(cs)[i]) < bound { ConstInConsts(cs, i); }
  }

  lemma AliasNodesSmaller(as_: seq<Alias>, bound: nat)
    requires AliasesSize(as_) < bound
    ensures forall c :: c in AliasNodes(as_) ==> NodeSize(c) < bound
  {
    forall i | 0 <= i < |as_| ensures NodeSize(AliasNodes(as_)[i]) < bound { AliasInAliases(as_, i); }
  }

  lemma ClassNodesSmaller(cs: seq<Class>, bound: nat)
    requires ClassesSize(cs) < bound
    ensures forall c :: c in ClassNodes(cs) ==> NodeSize(c) < bound
  {
    forall i | 0 <= i < |cs| ensures NodeSize(ClassNodes(cs)[i]) < bound { ClassInClasses(cs, i); }
  }

  /** Every child is strictly smaller than its parent, so traversals terminate. */
  lemma ChildrenSmaller(n: Node)
    ensures forall c :: c in Children(n) ==> NodeSize(c) < NodeSize(n)
  {
    match n
    case TypeNode(t) =>
      match t {
        case GenericType(b, ps) => TypeNodesSmaller(ps, NodeSize(n));
        case TupleType(b, ps) => TypeNodesSmaller(ps, NodeSize(n));
        case CallableType(b, ps) => TypeNodesSmaller(ps, NodeSize(n));
        case UnionType(ts) => TypeNodesSmaller(ts, NodeSize(n));
        case TypeParameter(_, cs, b, _) =>
          TypeNodesSmaller(cs, NodeSize(n));
          assert b.Some? ==> NodeSize(TypeNode(b.value)) == OptTypeSize(b);
        case _ =>
      }
    case ParamNode(p) =>
    case SigNode(s) =>
      ParamNodesSmaller(s.params, NodeSize(n));
      TypeNodesSmaller(s.exceptions, NodeSize(n));
      TypeNodesSmaller(s.template, NodeSize(n));
    case FuncNode(f) => SigNodesSmaller(f.signatures, NodeSize(n));
    case ConstNode(_) =>
    case AliasNode(_) =>
    case ClassNode(c) =>
      TypeNodesSmaller(c.parents, NodeSize(n));
      TypeNodesSmaller(c.template, NodeSize(n));
      FuncNodesSmaller(c.methods, NodeSize(n));
      ConstNodesSmaller(c.constants, NodeSize(n));
    case UnitNode(u) =>
      TypeNodesSmaller(u.typeParams, NodeSize(n));
      ConstNodesSmaller(u.constants, NodeSize(n));
      ClassNodesSmaller(u.classes, NodeSize(n));
      FuncNodesSmaller(u.functions, NodeSize(n));
      AliasNodesSmaller(u.aliases, NodeSize(n));
  }
}
