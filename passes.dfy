/**
 * The smaller passes of pytype/pytd/parse/visitors.py: dependency
 * collection, type replacement, canonical ordering, signature expansion,
 * fresh names for `*args`/`**kwargs`, and the union printer.
 */
module Passes {
  import opened Wrappers
  import opened Names
  import opened Pytd
  import opened Visit
  import opened Traversal

  // ---------------------------------------------------------------------
  // CollectDependencies

  /** The module part of a dotted name: the text before its last dot. */
  function ModuleOf(name: string): (r: Option<string>)
    ensures r.None? <==> '.' !in name
    ensures r.Some? ==> exists x :: '.' !in x && name == r.value + "." + x
  {
    RPartitionParts(name);
    var (m, d, x) := RPartition(name);
    if d == "" then None else assert name == m + "." + x; Some(m)
  }

  /** The module a NamedType or ClassType node refers into, if its name is dotted. */
  function RefModule(n: Node): Option<string> {
    if n.TypeNode? && (n.t.NamedType? || n.t.ClassType?) then ModuleOf(n.t.name) else None
  }

  function ModulesOf(ns: seq<Node>): set<string> {
    if ns == [] then {}
    else (if RefModule(ns[0]).Some? then {RefModule(ns[0]).value} else {}) + ModulesOf(ns[1..])
  }

  lemma {:induction false} ModulesOfMembers(ns: seq<Node>, m: string)
    ensures m in ModulesOf(ns) <==> exists k :: k in ns && RefModule(k) == Some(m)
  {
    if ns != [] {
      ModulesOfMembers(ns[1..], m);
      if RefModule(ns[0]) == Some(m) {
        assert ns[0] in ns;
      }
      assert forall k :: k in ns <==> k == ns[0] || k in ns[1..];
    }
  }

  /** The modules referred to anywhere in the tree rooted at `n`. */
  function Dependencies(n: Node): (r: set<string>)
    ensures forall m :: m in r <==> exists k :: k in Preorder(n) && RefModule(k) == Some(m)
  {
    forall m ensures m in ModulesOf(Preorder(n)) <==> exists k :: k in Preorder(n) && RefModule(k) == Some(m) {
      ModulesOfMembers(Preorder(n), m);
    }
    ModulesOf(Preorder(n))
  }

  function DependencyEnter(s: set<string>, n: Node): Result<set<string>, PassError> {
    match RefModule(n)
    case Some(m) => Ok(s + {m})
    case None => Ok(s)
  }

  /** The visitor: an Enter hook on NamedType and ClassType that adds the module part of dotted names. */
  function CollectDependencies(): Visitor<set<string>> {
    Visitor({KNamedType, KClassType}, {}, {}, false,
      DependencyEnter,
      (s: set<string>, n: Node) => Ok((s, n)),
      (s: set<string>, n: Node) => s)
  }

  lemma {:induction false} CollectFold(s: set<string>, ns: seq<Node>)
    ensures FoldEnter(CollectDependencies(), s, ns) == Ok(s + ModulesOf(ns))
    decreases |ns|
  {
    if ns != [] {
      var v := CollectDependencies();
      var s1 := if KindOf(ns[0]) in v.enterKinds then v.enter(s, ns[0]) else Ok(s);
      var head := if RefModule(ns[0]).Some? then {RefModule(ns[0]).value} else {};
      if KindOf(ns[0]) in v.enterKinds {
        assert s1 == DependencyEnter(s, ns[0]);
        if RefModule(ns[0]).None? {
          assert s + head == s;
        }
      } else {
        assert RefModule(ns[0]).None?;
        assert s + head == s;
      }
      assert s1 == Ok(s + head);
      assert FoldEnter(v, s, ns) == FoldEnter(v, s + head, ns[1..]);
      CollectFold(s + head, ns[1..]);
      assert ModulesOf(ns) == head + ModulesOf(ns[1..]);
      assert s + head + ModulesOf(ns[1..]) == s + ModulesOf(ns);
    } else {
      assert s + ModulesOf(ns) == s;
    }
  }

  /** Running the visitor from an empty set collects exactly the tree's dependencies and changes no node. */
  lemma CollectDependenciesMeaning(n: Node)
    ensures Apply(CollectDependencies(), {}, n) == Ok((Dependencies(n), n))
  {
    EnterOnlyIsFold(CollectDependencies(), {}, n);
    CollectFold({}, Preorder(n));
    assert {} + ModulesOf(Preorder(n)) == Dependencies(n);
  }

  // ---------------------------------------------------------------------
  // ReplaceTypes (without the `record` set)

  function ReplaceType(mapping: map<string, Type>, t: Type): Type {
    if (t.NamedType? || t.ClassType?) && t.name in mapping then mapping[t.name] else t
  }

  function ReplaceTypes(mapping: map<string, Type>, n: Node): (r: Node)
    ensures SameCategory(r, n)
  {
    MapTypes(t => ReplaceType(mapping, t), {KNamedType, KClassType}, n)
  }

  /** The replacement is a stateless visitor: its Visit hooks on NamedType and ClassType compute `ReplaceTypes`. */
  lemma ReplaceTypesVisitor<S>(mapping: map<string, Type>, s: S, n: Node)
    ensures Apply(NodeMapper<S>(TypeHook(t => ReplaceType(mapping, t)), {KNamedType, KClassType}), s, n)
      == Ok((s, ReplaceTypes(mapping, n)))
  {
    NodeMapperIsMap(TypeHook(t => ReplaceType(mapping, t)), {KNamedType, KClassType}, s, n);
  }

  /** A name that is referred to by the tree. */
  predicate Mentions(names: set<string>, m: Node) {
    m.TypeNode? && (m.t.NamedType? || m.t.ClassType?) && m.t.name in names
  }

  /**
   * When no replacement value mentions a mapped name, no mapped name is
   * left anywhere in the result.
   */
  lemma ReplaceTypesRemoves(mapping: map<string, Type>, n: Node)
    requires forall k :: k in mapping ==> Everywhere(m => !Mentions(mapping.Keys, m), TypeNode(mapping[k]))
    ensures Everywhere(m => !Mentions(mapping.Keys, m), ReplaceTypes(mapping, n))
  {
    var P := (m: Node) => !Mentions(mapping.Keys, m);
    var g := (t: Type) => ReplaceType(mapping, t);
    var ks := {KNamedType, KClassType};
    forall m | m in Preorder(n) && KindOf(m) in ks && TypeHook(g)(m).Ok?
      ensures Everywhere(P, TypeHook(g)(m).value)
    {
      var r := TypeNode(g(m.t));
      assert TypeHook(g)(m).value == r;
      if m.t.name !in mapping {
        assert r == m;
        LeafNoChildren(m);
        assert Preorder(m) == [m];
      }
    }
    forall m, cs | KindOf(m) !in ks && P(m) && WithChildren(m, cs).Some?
      ensures P(WithChildren(m, cs).value)
    {
    }
    MapNodesEverywhere(TypeHook(g), ks, P, n);
  }

  /** The empty mapping changes nothing. */
  lemma ReplaceTypesEmpty(n: Node)
    ensures ReplaceTypes(map[], n) == n
  {
    MapNodesIdentity(TypeHook(t => ReplaceType(map[], t)), {KNamedType, KClassType}, n);
  }

  // ---------------------------------------------------------------------
  // Sorting, for CanonicalOrderingVisitor

  /** String order by code points, as Python compares `str`. */
  predicate LexLe(a: string, b: string)
    decreases |a|
  {
    a == [] || (b != [] && (a[0] < b[0] || (a[0] == b[0] && LexLe(a[1..], b[1..]))))
  }

  lemma {:induction false} LexLeTotal(a: string, b: string)
    ensures LexLe(a, b) || LexLe(b, a)
    decreases |a|
  {
    if a != [] && b != [] && a[0] == b[0] {
      LexLeTotal(a[1..], b[1..]);
    }
  }

  lemma {:induction false} LexLeTrans(a: string, b: string, c: string)
    requires LexLe(a, b) && LexLe(b, c)
    ensures LexLe(a, c)
    decreases |a|
  {
    if a != [] && a[0] == b[0] && b[0] == c[0] {
      LexLeTrans(a[1..], b[1..], c[1..]);
    }
  }

  predicate SortedBy<X>(xs: seq<X>, key: X -> string) {
    forall i, j :: 0 <= i < j < |xs| ==> LexLe(key(xs[i]), key(xs[j]))
  }

  /** Insert `x` before the first element whose key is not smaller. */
  function Insert<X>(x: X, xs: seq<X>, key: X -> string): (r: seq<X>)
    ensures multiset(r) == multiset(xs) + multiset{x}
    ensures SortedBy(xs, key) ==> SortedBy(r, key)
  {
    if xs == [] then [x]
    else if LexLe(key(x), key(xs[0])) then
      assert SortedBy(xs, key) ==> SortedBy([x] + xs, key) by {
        if SortedBy(xs, key) {
          forall j | 0 < j < |xs| + 1
            ensures LexLe(key(x), key(([x] + xs)[j]))
          {
            if j > 1 { LexLeTrans(key(x), key(xs[0]), key(xs[j - 1])); }
          }
        }
      }
      assert xs == [xs[0]] + xs[1..];
      [x] + xs
    else
      var rest := Insert(x, xs[1..], key);
      assert xs == [xs[0]] + xs[1..];
      assert SortedBy(xs, key) ==> SortedBy([xs[0]] + rest, key) by {
        if SortedBy(xs, key) {
          LexLeTotal(key(x), key(xs[0]));
          forall j | 0 <= j < |rest|
            ensures LexLe(key(xs[0]), key(rest[j]))
          {
            assert rest[j] in multiset(rest);
            if rest[j] != x {
              assert rest[j] in multiset(xs[1..]);
              var i :| 0 <= i < |xs[1..]| && xs[1..][i] == rest[j];
              assert xs[i + 1] == rest[j];
            }
          }
        }
      }
      [xs[0]] + rest
  }

  /** `sorted(xs)` by `key`: insertion sort, which keeps equal keys in their input order. */
  function Sort<X>(xs: seq<X>, key: X -> string): (r: seq<X>)
    ensures multiset(r) == multiset(xs) && SortedBy(r, key)
  {
    if xs == [] then []
    else
      assert xs == [xs[0]] + xs[1..];
      Insert(xs[0], Sort(xs[1..], key), key)
  }

  /** A sorted sequence is its own sort; so sorting twice is sorting once. */
  lemma {:induction false} SortSorted<X>(xs: seq<X>, key: X -> string)
    requires SortedBy(xs, key)
    ensures Sort(xs, key) == xs
  {
    if xs != [] {
      SortSorted(xs[1..], key);
      assert xs == [xs[0]] + xs[1..];
    }
  }

  lemma SortMembers<X>(xs: seq<X>, key: X -> string)
    ensures forall x :: x in Sort(xs, key) ==> x in xs
  {
    forall x | x in Sort(xs, key) ensures x in xs {
      assert x in multiset(Sort(xs, key));
    }
  }

  // ---------------------------------------------------------------------
  // CanonicalOrderingVisitor

  /**
   * The sort key of a type: its name, or the name of its base.  pytd
   * compares nodes field by field; only the first field's name is used
   * here, and equal keys keep their order.
   */
  function TypeKey(t: Type): string {
    match t
    case NamedType(name) => name
    case ClassType(name, _) => name
    case FunctionType(name) => name
    case TypeParameter(name, _, _, _) => name
    case GenericType(b, _) => TypeKey(b)
    case TupleType(b, _) => TypeKey(b)
    case CallableType(b, _) => TypeKey(b)
    case UnionType(_) => ""
    case AnythingType => ""
    case NothingType => ""
  }

  function ParamsKey(ps: seq<Parameter>): string {
    if ps == [] then "" else ps[0].name + ":" + TypeKey(ps[0].typ) + "," + ParamsKey(ps[1..])
  }

  function SigKey(s: Signature): string { ParamsKey(s.params) }
  function ConstKey(c: Constant): string { c.name }
  function AliasKey(a: Alias): string { a.name }
  function ClassKey(c: Class): string { c.name }
  function FuncKey(f: Function): string { f.name }

  /** What the visitor's Visit hooks make of a node whose children are already canonical. */
  function Canonical(sortSignatures: bool, n: Node): Node {
    match n
    case UnitNode(u) =>
      UnitNode(TypeDeclUnit(u.name, Sort(u.constants, ConstKey), Sort(u.typeParams, TypeKey),
        Sort(u.classes, ClassKey), Sort(u.functions, FuncKey), Sort(u.aliases, AliasKey)))
    case ClassNode(c) =>
      ClassNode(c.(methods := Sort(c.methods, FuncKey), constants := Sort(c.constants, ConstKey)))
    case FuncNode(f) =>
      if sortSignatures then FuncNode(f.(signatures := Sort(f.signatures, SigKey))) else n
    case SigNode(s) => SigNode(s.(exceptions := Sort(s.exceptions, TypeKey)))
    case TypeNode(t) => if t.UnionType? then TypeNode(UnionType(Sort(t.types, TypeKey))) else n
    case _ => n
  }

  function CanonicalHook(sortSignatures: bool): Node -> Result<Node, PassError> {
    (n: Node) => Ok(Canonical(sortSignatures, n))
  }

  /** The kinds with Visit hooks: TypeDeclUnit, Class, Function (not ExternalFunction), Signature, UnionType. */
  const CanonicalKinds: set<Kind> := {KUnit, KClass, KFunction, KSignature, KUnionType}

  function CanonicalOrdering(sortSignatures: bool, n: Node): (r: Node)
    ensures SameCategory(r, n)
  {
    CanonicalTotal(sortSignatures);
    MapNodesTotal(CanonicalHook(sortSignatures), CanonicalKinds, n);
    MapNodes(CanonicalHook(sortSignatures), CanonicalKinds, n).value
  }

  lemma CanonicalTotal(sortSignatures: bool)
    ensures TotalHook(CanonicalHook(sortSignatures))
  {
  }

  /** The hook's lists come out sorted and as permutations of the lists it was handed. */
  lemma CanonicalSorts(sortSignatures: bool, n: Node)
    ensures KindOf(Canonical(sortSignatures, n)) == KindOf(n)
    ensures n.UnitNode? ==> var u := n.u; var r := Canonical(sortSignatures, n).u;
      r.name == u.name
      && SortedBy(r.constants, ConstKey) && multiset(r.constants) == multiset(u.constants)
      && SortedBy(r.typeParams, TypeKey) && multiset(r.typeParams) == multiset(u.typeParams)
      && SortedBy(r.classes, ClassKey) && multiset(r.classes) == multiset(u.classes)
      && SortedBy(r.functions, FuncKey) && multiset(r.functions) == multiset(u.functions)
      && SortedBy(r.aliases, AliasKey) && multiset(r.aliases) == multiset(u.aliases)
    ensures n.ClassNode? ==> var c := n.cls; var r := Canonical(sortSignatures, n).cls;
      r.name == c.name && r.metaclass == c.metaclass && r.parents == c.parents && r.template == c.template
      && SortedBy(r.methods, FuncKey) && multiset(r.methods) == multiset(c.methods)
      && SortedBy(r.constants, ConstKey) && multiset(r.constants) == multiset(c.constants)
    ensures n.FuncNode? ==> var r := Canonical(sortSignatures, n).f;
      r.name == n.f.name && r.kind == n.f.kind && multiset(r.signatures) == multiset(n.f.signatures)
      && (sortSignatures ==> SortedBy(r.signatures, SigKey))
      && (!sortSignatures ==> r.signatures == n.f.signatures)
    ensures n.SigNode? ==> var r := Canonical(sortSignatures, n).sig;
      r == n.sig.(exceptions := r.exceptions)
      && SortedBy(r.exceptions, TypeKey) && multiset(r.exceptions) == multiset(n.sig.exceptions)
    ensures n.TypeNode? && n.t.UnionType? ==> var r := Canonical(sortSignatures, n).t;
      r.UnionType? && SortedBy(r.types, TypeKey) && multiset(r.types) == multiset(n.t.types)
  {
  }

  /** Applied to its own result, the hook changes nothing more. */
  lemma CanonicalTwice(sortSignatures: bool, n: Node)
    ensures Canonical(sortSignatures, Canonical(sortSignatures, n)) == Canonical(sortSignatures, n)
  {
    match n
    case UnitNode(u) =>
      SortSorted(Sort(u.constants, ConstKey), ConstKey);
      SortSorted(Sort(u.typeParams, TypeKey), TypeKey);
      SortSorted(Sort(u.classes, ClassKey), ClassKey);
      SortSorted(Sort(u.functions, FuncKey), FuncKey);
      SortSorted(Sort(u.aliases, AliasKey), AliasKey);
    case ClassNode(c) =>
      SortSorted(Sort(c.methods, FuncKey), FuncKey);
      SortSorted(Sort(c.constants, ConstKey), ConstKey);
    case FuncNode(f) =>
      SortSorted(Sort(f.signatures, SigKey), SigKey);
    case SigNode(s) =>
      SortSorted(Sort(s.exceptions, TypeKey), TypeKey);
    case TypeNode(t) =>
      if t.UnionType? { SortSorted(Sort(t.types, TypeKey), TypeKey); }
    case _ =>
  }

  lemma TypeNodesSorted(ts: seq<Type>, key: Type -> string)
    ensures forall c :: c in TypeNodes(Sort(ts, key)) ==> c in TypeNodes(ts)
  {
    SortMembers(ts, key);
    forall c | c in TypeNodes(Sort(ts, key)) ensures c in TypeNodes(ts) {
      var i :| 0 <= i < |Sort(ts, key)| && c == TypeNode(Sort(ts, key)[i]);
      assert Sort(ts, key)[i] in ts;
      var j :| 0 <= j < |ts| && ts[j] == Sort(ts, key)[i];
      assert TypeNodes(ts)[j] == c;
    }
  }

  lemma FuncNodesSorted(fs: seq<Function>)
    ensures forall c :: c in FuncNodes(Sort(fs, FuncKey)) ==> c in FuncNodes(fs)
  {
    SortMembers(fs, FuncKey);
    forall c | c in FuncNodes(Sort(fs, FuncKey)) ensures c in FuncNodes(fs) {
      var i :| 0 <= i < |Sort(fs, FuncKey)| && c == FuncNode(Sort(fs, FuncKey)[i]);
      assert Sort(fs, FuncKey)[i] in fs;
      var j :| 0 <= j < |fs| && fs[j] == Sort(fs, FuncKey)[i];
      assert FuncNodes(fs)[j] == c;
    }
  }

  lemma ConstNodesSorted(ks: seq<Constant>)
    ensures forall c :: c in ConstNodes(Sort(ks, ConstKey)) ==> c in ConstNodes(ks)
  {
    SortMembers(ks, ConstKey);
    forall c | c in ConstNodes(Sort(ks, ConstKey)) ensures c in ConstNodes(ks) {
      var i :| 0 <= i < |Sort(ks, ConstKey)| && c == ConstNode(Sort(ks, ConstKey)[i]);
      assert Sort(ks, ConstKey)[i] in ks;
      var j :| 0 <= j < |ks| && ks[j] == Sort(ks, ConstKey)[i];
      assert ConstNodes(ks)[j] == c;
    }
  }

  lemma ClassNodesSorted(cs: seq<Class>)
    ensures forall c :: c in ClassNodes(Sort(cs, ClassKey)) ==> c in ClassNodes(cs)
  {
    SortMembers(cs, ClassKey);
    forall c | c in ClassNodes(Sort(cs, ClassKey)) ensures c in ClassNodes(cs) {
      var i :| 0 <= i < |Sort(cs, ClassKey)| && c == ClassNode(Sort(cs, ClassKey)[i]);
      assert Sort(cs, ClassKey)[i] in cs;
      var j :| 0 <= j < |cs| && cs[j] == Sort(cs, ClassKey)[i];
      assert ClassNodes(cs)[j] == c;
    }
  }

  lemma AliasNodesSorted(als: seq<Alias>)
    ensures forall c :: c in AliasNodes(Sort(als, AliasKey)) ==> c in AliasNodes(als)
  {
    SortMembers(als, AliasKey);
    forall c | c in AliasNodes(Sort(als, AliasKey)) ensures c in AliasNodes(als) {
      var i :| 0 <= i < |Sort(als, AliasKey)| && c == AliasNode(Sort(als, AliasKey)[i]);
      assert Sort(als, AliasKey)[i] in als;
      var j :| 0 <= j < |als| && als[j] == Sort(als, AliasKey)[i];
      assert AliasNodes(als)[j] == c;
    }
  }

  lemma SigNodesSorted(ss: seq<Signature>)
    ensures forall c :: c in SigNodes(Sort(ss, SigKey)) ==> c in SigNodes(ss)
  {
    SortMembers(ss, SigKey);
    forall c | c in SigNodes(Sort(ss, SigKey)) ensures c in SigNodes(ss) {
      var i :| 0 <= i < |Sort(ss, SigKey)| && c == SigNode(Sort(ss, SigKey)[i]);
      assert Sort(ss, SigKey)[i] in ss;
      var j :| 0 <= j < |ss| && ss[j] == Sort(ss, SigKey)[i];
      assert SigNodes(ss)[j] == c;
    }
  }

  /** The hook only reorders a node's children. */
  lemma CanonicalChildren(sortSignatures: bool, n: Node)
    ensures forall c :: c in Children(Canonical(sortSignatures, n)) ==> c in Children(n)
  {
    match n
    case UnitNode(u) =>
      ConstNodesSorted(u.constants);
      TypeNodesSorted(u.typeParams, TypeKey);
      ClassNodesSorted(u.classes);
      FuncNodesSorted(u.functions);
      AliasNodesSorted(u.aliases);
    case ClassNode(c) =>
      FuncNodesSorted(c.methods);
      ConstNodesSorted(c.constants);
    case FuncNode(f) =>
      SigNodesSorted(f.signatures);
    case SigNode(s) =>
      TypeNodesSorted(s.exceptions, TypeKey);
    case TypeNode(t) =>
      if t.UnionType? { TypeNodesSorted(t.types, TypeKey); }
    case _ =>
  }

  /** Canonical ordering is idempotent: ordering an ordered tree changes nothing. */
  lemma CanonicalOrderingIdempotent(sortSignatures: bool, n: Node)
    ensures CanonicalOrdering(sortSignatures, CanonicalOrdering(sortSignatures, n)) == CanonicalOrdering(sortSignatures, n)
  {
    var h := CanonicalHook(sortSignatures);
    forall m | KindOf(m) in CanonicalKinds
      ensures KindOf(h(m).value) == KindOf(m) && h(h(m).value) == h(m)
      ensures forall c :: c in Children(h(m).value) ==> c in Children(m)
    {
      CanonicalSorts(sortSignatures, m);
      CanonicalTwice(sortSignatures, m);
      CanonicalChildren(sortSignatures, m);
    }
    MapNodesIdempotent(h, CanonicalKinds, n);
  }

  /** A canonically ordered unit has all five of its lists sorted. */
  lemma CanonicalUnitSorted(sortSignatures: bool, u: TypeDeclUnit)
    ensures var r := CanonicalOrdering(sortSignatures, UnitNode(u));
      r.UnitNode? && r.u.name == u.name
      && SortedBy(r.u.constants, ConstKey) && SortedBy(r.u.typeParams, TypeKey)
      && SortedBy(r.u.classes, ClassKey) && SortedBy(r.u.functions, FuncKey)
      && SortedBy(r.u.aliases, AliasKey)
  {
    var n := UnitNode(u);
    var h := CanonicalHook(sortSignatures);
    CanonicalTotal(sortSignatures);
    ChildrenSmaller(n);
    MapNodesListTotal(h, CanonicalKinds, Children(n), n);
    var cs := MapNodesList(h, CanonicalKinds, Children(n), n).value;
    RebuildFits(n, cs);
    var m := WithChildren(n, cs).value;
    assert MapNodes(h, CanonicalKinds, n) == h(m);
    CanonicalSorts(sortSignatures, m);
  }

  /** The visitor itself is stateless, so it computes `CanonicalOrdering`. */
  lemma CanonicalOrderingVisitor<S>(sortSignatures: bool, s: S, n: Node)
    ensures Apply(NodeMapper<S>(CanonicalHook(sortSignatures), CanonicalKinds), s, n)
      == Ok((s, CanonicalOrdering(sortSignatures, n)))
  {
    var h := CanonicalHook(sortSignatures);
    NodeMapperIsMap(h, CanonicalKinds, s, n);
    CanonicalTotal(sortSignatures);
    MapNodesTotal(h, CanonicalKinds, n);
    assert CanonicalOrdering(sortSignatures, n) == MapNodes(h, CanonicalKinds, n).value;
  }

  // ---------------------------------------------------------------------
  // ExpandSignature and ExpandSignatures

  /** Put `h` in front of every tail. */
  function Cons<X>(h: X, tails: seq<seq<X>>): (r: seq<seq<X>>)
    ensures |r| == |tails| && forall i :: 0 <= i < |tails| ==> r[i] == [h] + tails[i]
  {
    seq(|tails|, i requires 0 <= i < |tails| => [h] + tails[i])
  }

  /** Every head in front of every tail, heads in the outer loop. */
  function Prepend<X>(heads: seq<X>, tails: seq<seq<X>>): (r: seq<seq<X>>)
    ensures |r| == |heads| * |tails|
  {
    if heads == [] then []
    else
      assert |heads| * |tails| == |tails| + (|heads| - 1) * |tails|;
      Cons(heads[0], tails) + Prepend(heads[1..], tails)
  }

  /** `itertools.product(*lists)`. */
  function Product<X>(lists: seq<seq<X>>): seq<seq<X>>
  {
    if lists == [] then [[]] else Prepend(lists[0], Product(lists[1..]))
  }

  /** The product of the lengths of `lists`. */
  function Count<X>(lists: seq<seq<X>>): nat {
    if lists == [] then 1 else |lists[0]| * Count(lists[1..])
  }

  lemma {:induction false} ProductCount<X>(lists: seq<seq<X>>)
    ensures |Product(lists)| == Count(lists)
  {
    if lists != [] { ProductCount(lists[1..]); }
  }

  lemma {:induction false} PrependAt<X>(heads: seq<X>, tails: seq<seq<X>>, k: nat, j: nat)
    requires k < |heads| && j < |tails|
    ensures k * |tails| + j < |Prepend(heads, tails)|
    ensures Prepend(heads, tails)[k * |tails| + j] == [heads[k]] + tails[j]
    decreases k
  {
    if k > 0 {
      PrependAt(heads[1..], tails, k - 1, j);
      assert k * |tails| + j == |tails| + ((k - 1) * |tails| + j);
    }
  }

  lemma {:induction false} PrependMembers<X>(heads: seq<X>, tails: seq<seq<X>>, x: seq<X>)
    ensures x in Prepend(heads, tails) <==> |x| > 0 && x[0] in heads && x[1..] in tails
  {
    if heads != [] {
      PrependMembers(heads[1..], tails, x);
      var c := Cons(heads[0], tails);
      assert x in c <==> |x| > 0 && x[0] == heads[0] && x[1..] in tails by {
        if x in c {
          var i :| 0 <= i < |c| && c[i] == x;
          assert x[1..] == tails[i];
        }
        if |x| > 0 && x[0] == heads[0] && x[1..] in tails {
          var i :| 0 <= i < |tails| && tails[i] == x[1..];
          assert c[i] == [x[0]] + x[1..] == x;
        }
      }
      assert forall y :: y in heads <==> y == heads[0] || y in heads[1..];
    }
  }

  /** A combination is in the product iff it picks one element from each list, in list order. */
  lemma {:induction false} ProductMembers<X>(lists: seq<seq<X>>, x: seq<X>)
    ensures x in Product(lists) <==> |x| == |lists| && forall j :: 0 <= j < |x| ==> x[j] in lists[j]
  {
    if lists == [] {
    } else {
      PrependMembers(lists[0], Product(lists[1..]), x);
      if |x| > 0 {
        ProductMembers(lists[1..], x[1..]);
        if |x| == |lists| && forall j :: 0 <= j < |x| ==> x[j] in lists[j] {
          assert forall j :: 0 <= j < |x[1..]| ==> x[1..][j] in lists[1..][j] by {
            forall j | 0 <= j < |x[1..]| ensures x[1..][j] in lists[1..][j] {
              assert x[1..][j] == x[j + 1];
            }
          }
        }
        if x[0] in lists[0] && x[1..] in Product(lists[1..]) {
          forall j | 0 <= j < |x| ensures x[j] in lists[j] {
            if j > 0 { assert x[j] == x[1..][j - 1]; }
          }
        }
      }
    }
  }

  /**
   * Product order: the combination at position `k * Count(rest) + j` takes
   * the `k`-th element of the first list and the `j`-th combination of the
   * others, so the last list varies fastest.
   */
  lemma ProductAt<X>(lists: seq<seq<X>>, k: nat, j: nat)
    requires lists != [] && k < |lists[0]| && j < Count(lists[1..])
    ensures j < |Product(lists[1..])| && k * Count(lists[1..]) + j < |Product(lists)|
    ensures Product(lists)[k * Count(lists[1..]) + j] == [lists[0][k]] + Product(lists[1..])[j]
  {
    ProductCount(lists[1..]);
    PrependAt(lists[0], Product(lists[1..]), k, j);
  }

  /** The variants of one parameter: one per member of a union type, else the parameter itself. */
  function Choices(p: Parameter): seq<Parameter> {
    if p.typ.UnionType? then seq(|p.typ.types|, i requires 0 <= i < |p.typ.types| => p.(typ := p.typ.types[i]))
    else [p]
  }

  function ParamChoices(ps: seq<Parameter>): (r: seq<seq<Parameter>>)
    ensures |r| == |ps| && forall i :: 0 <= i < |ps| ==> r[i] == Choices(ps[i])
  {
    seq(|ps|, i requires 0 <= i < |ps| => Choices(ps[i]))
  }

  /** `ExpandSignature(sig)`: one signature per combination of the parameters' variants. */
  function ExpandSignature(sig: Signature): seq<Signature> {
    var combos := Product(ParamChoices(sig.params));
    seq(|combos|, i requires 0 <= i < |combos| => sig.(params := combos[i]))
  }

  /** `q` is a variant of `p`: `p` itself, or `p` with its union type narrowed to one member. */
  predicate Variant(p: Parameter, q: Parameter) {
    if p.typ.UnionType? then q.typ in p.typ.types && q == p.(typ := q.typ) else q == p
  }

  lemma ChoicesMembers(p: Parameter, q: Parameter)
    ensures q in Choices(p) <==> Variant(p, q)
  {
    if p.typ.UnionType? {
      if Variant(p, q) {
        var i :| 0 <= i < |p.typ.types| && p.typ.types[i] == q.typ;
        assert Choices(p)[i] == q;
      }
    }
  }

  /** How many signatures a parameter list expands to: the product of its union sizes. */
  function Width(p: Parameter): nat { if p.typ.UnionType? then |p.typ.types| else 1 }

  function Expansions(ps: seq<Parameter>): nat {
    if ps == [] then 1 else Width(ps[0]) * Expansions(ps[1..])
  }

  lemma {:induction false} ChoicesCount(ps: seq<Parameter>)
    ensures Count(ParamChoices(ps)) == Expansions(ps)
  {
    if ps != [] {
      ChoicesCount(ps[1..]);
      assert ParamChoices(ps)[1..] == ParamChoices(ps[1..]);
    }
  }

  /** The expansion yields exactly the product of the union sizes. */
  lemma ExpandSignatureCount(sig: Signature)
    ensures |ExpandSignature(sig)| == Expansions(sig.params)
  {
    ProductCount(ParamChoices(sig.params));
    ChoicesCount(sig.params);
  }

  /**
   * A signature is in the expansion iff it differs from `sig` only in its
   * parameters, and each parameter is a variant of the original one: a
   * non-union parameter is unchanged.
   */
  lemma ExpandSignatureMembers(sig: Signature, r: Signature)
    ensures r in ExpandSignature(sig) <==>
      r == sig.(params := r.params) && |r.params| == |sig.params|
      && forall j :: 0 <= j < |sig.params| ==> Variant(sig.params[j], r.params[j])
  {
    var lists := ParamChoices(sig.params);
    var combos := Product(lists);
    ProductMembers(lists, r.params);
    forall j | 0 <= j < |sig.params| && j < |r.params|
      ensures r.params[j] in lists[j] <==> Variant(sig.params[j], r.params[j])
    {
      ChoicesMembers(sig.params[j], r.params[j]);
    }
    if r in ExpandSignature(sig) {
      var i :| 0 <= i < |combos| && ExpandSignature(sig)[i] == r;
      assert r.params == combos[i] && combos[i] in combos;
    }
    if r == sig.(params := r.params) && r.params in combos {
      var i :| 0 <= i < |combos| && combos[i] == r.params;
      assert ExpandSignature(sig)[i] == r;
    }
  }

  /**
   * Expansion order: the first parameter varies slowest.  Position
   * `k * Expansions(rest) + j` holds the `k`-th variant of the first
   * parameter followed by the `j`-th expansion of the remaining ones.
   */
  lemma ExpandSignatureOrder(sig: Signature, k: nat, j: nat)
    requires sig.params != [] && k < Width(sig.params[0]) && j < Expansions(sig.params[1..])
    ensures var rest := ExpandSignature(sig.(params := sig.params[1..]));
      var all := ExpandSignature(sig);
      j < |rest| && k * Expansions(sig.params[1..]) + j < |all|
      && all[k * Expansions(sig.params[1..]) + j]
         == sig.(params := [Choices(sig.params[0])[k]] + rest[j].params)
  {
    var lists := ParamChoices(sig.params);
    assert lists[1..] == ParamChoices(sig.params[1..]);
    ChoicesCount(sig.params[1..]);
    ExpandSignatureCount(sig.(params := sig.params[1..]));
    ProductAt(lists, k, j);
  }

  /** `sum([ExpandSignature(s) for s in sigs], [])` */
  function ExpandAll(sigs: seq<Signature>): seq<Signature> {
    if sigs == [] then [] else ExpandSignature(sigs[0]) + ExpandAll(sigs[1..])
  }

  lemma {:induction false} ExpandAllMembers(sigs: seq<Signature>, r: Signature)
    ensures r in ExpandAll(sigs) <==> exists i :: 0 <= i < |sigs| && r in ExpandSignature(sigs[i])
  {
    if sigs != [] {
      ExpandAllMembers(sigs[1..], r);
      if exists i :: 0 <= i < |sigs| && r in ExpandSignature(sigs[i]) {
        var i :| 0 <= i < |sigs| && r in ExpandSignature(sigs[i]);
        if i > 0 { assert sigs[1..][i - 1] == sigs[i]; }
      }
      if exists i :: 0 <= i < |sigs[1..]| && r in ExpandSignature(sigs[1..][i]) {
        var i :| 0 <= i < |sigs[1..]| && r in ExpandSignature(sigs[1..][i]);
        assert sigs[i + 1] == sigs[1..][i];
      }
    }
  }

  /** ExpandSignatures' Visit hook on Function. */
  function ExpandHook(n: Node): Result<Node, PassError> {
    if n.FuncNode? then Ok(FuncNode(n.f.(signatures := ExpandAll(n.f.signatures)))) else Ok(n)
  }

  function ExpandSignatures(n: Node): (r: Node)
    ensures SameCategory(r, n)
  {
    MapNodesTotal(ExpandHook, {KFunction}, n);
    MapNodes(ExpandHook, {KFunction}, n).value
  }

  const BelowFunction: set<Kind> := TypeKinds + {KSignature, KParameter}

  /** A Function node is replaced by one holding the concatenated expansions of its signatures. */
  lemma ExpandSignaturesFunction(f: Function)
    requires f.Function?
    ensures ExpandSignatures(FuncNode(f)) == FuncNode(f.(signatures := ExpandAll(f.signatures)))
  {
    var n := FuncNode(f);
    ChildrenSmaller(n);
    forall c | c in Children(n)
      ensures MapNodes(ExpandHook, {KFunction}, c) == Ok(c)
    {
      NotBeneath({KFunction}, BelowFunction, c);
      MapNodesUntouched(ExpandHook, {KFunction}, c);
    }
    MapNodesListFixed(ExpandHook, {KFunction}, Children(n), n);
    WithOwnChildren(n);
  }

  /** The visitor is stateless: it computes `ExpandSignatures`. */
  lemma ExpandSignaturesVisitor<S>(s: S, n: Node)
    ensures Apply(NodeMapper<S>(ExpandHook, {KFunction}), s, n) == Ok((s, ExpandSignatures(n)))
  {
    NodeMapperIsMap(ExpandHook, {KFunction}, s, n);
    MapNodesTotal(ExpandHook, {KFunction}, n);
  }

  // ---------------------------------------------------------------------
  // InventStarArgParams

  function Underscores(k: nat): string {
    if k == 0 then "" else "_" + Underscores(k - 1)
  }

  function MaxLen(names: seq<string>): nat {
    if names == [] then 0 else var m := MaxLen(names[1..]); if |names[0]| > m then |names[0]| else m
  }

  lemma {:induction false} MaxLenBounds(names: seq<string>, x: string)
    requires x in names
    ensures |x| <= MaxLen(names)
  {
    if names[0] != x { MaxLenBounds(names[1..], x); }
  }

  /** `r` is `base` behind `k` underscores, and every shorter candidate is taken. */
  predicate FreshFrom(names: seq<string>, base: string, r: string, k: nat) {
    r == Underscores(k) + base && forall j :: 0 <= j < k ==> Underscores(j) + base in names
  }

  /** The first of `base`, `_base`, `__base`, ... that is not in `names`. */
  method FreshName(names: seq<string>, base: string) returns (r: string)
    ensures r !in names
    ensures exists k: nat :: FreshFrom(names, base, r, k)
  {
    r := base;
    ghost var k: nat := 0;
    while r in names
      invariant FreshFrom(names, base, r, k)
      decreases MaxLen(names) + 1 - |r|
    {
      MaxLenBounds(names, r);
      r := "_" + r;
      k := k + 1;
    }
  }

  /**
   * Parameters for `*args` and `**kwargs` whose names are not among
   * `existing`: the shortest names made of underscores followed by `args`
   * and `kwargs` that are free.
   */
  method InventStarArgParams(existing: seq<string>) returns (args: Parameter, kwargs: Parameter)
    ensures args.name !in existing && kwargs.name !in existing
    ensures exists k: nat :: FreshFrom(existing, "args", args.name, k)
    ensures exists k: nat :: FreshFrom(existing, "kwargs", kwargs.name, k)
    ensures args == Parameter(args.name, NamedType("tuple"), false, true, None)
    ensures kwargs == Parameter(kwargs.name, NamedType("dict"), false, true, None)
  {
    var a := FreshName(existing, "args");
    var kw := FreshName(existing, "kwargs");
    args := Parameter(a, NamedType("tuple"), false, true, None);
    kwargs := Parameter(kw, NamedType("dict"), false, true, None);
  }

  // ---------------------------------------------------------------------
  // PrintVisitor._BuildUnion

  /** `_FromTyping(name)`: qualified with `typing.` when the name collides with a local one. */
  function FromTyping(name: string, collisions: set<string>): string {
    if name in collisions then "typing." + name else name
  }

  function NonNone(ts: seq<string>): (r: seq<string>)
    ensures "None" !in r && |r| < |ts| + (if "None" in ts then 0 else 1)
    ensures forall t :: t in r <==> t in ts && t != "None"
  {
    if ts == [] then []
    else
      var rest := NonNone(ts[1..]);
      assert forall t :: t in ts <==> t == ts[0] || t in ts[1..];
      if ts[0] == "None" then rest else [ts[0]] + rest
  }

  /** The union printed with `Union`, without the `Optional` shorthand. */
  function PlainUnion(ts: seq<string>, collisions: set<string>): string {
    if |ts| == 1 then ts[0] else FromTyping("Union", collisions) + "[" + Join(ts, ", ") + "]"
  }

  /**
   * `_BuildUnion(type_list)`: a single type is printed alone, a union
   * containing `None` as `Optional[...]` of the other members, any other
   * union as `Union[...]`.  An `Optional` is never nested.
   */
  function BuildUnion(ts: seq<string>, collisions: set<string>): (r: string)
    ensures |ts| == 1 ==> r == ts[0]
    ensures |ts| != 1 && "None" in ts ==>
      r == FromTyping("Optional", collisions) + "[" + PlainUnion(NonNone(ts), collisions) + "]"
    ensures "None" !in ts ==> r == PlainUnion(ts, collisions)
    decreases |ts|
  {
    if |ts| == 1 then ts[0]
    else if "None" in ts then
      FromTyping("Optional", collisions) + "[" + BuildUnion(NonNone(ts), collisions) + "]"
    else FromTyping("Union", collisions) + "[" + Join(ts, ", ") + "]"
  }
}
