/**
 * Name resolution over pytd trees: the symbol-table lookup of a unit, the
 * conversion of a looked-up item into a type, and the visitors that turn
 * names into class pointers (FillInModuleClasses, LookupExternalTypes,
 * LookupLocalTypes, NamedTypeToClassType) or check that none is left
 * (VerifyLookup).
 */
module Lookup {
  import opened Wrappers
  import opened Names
  import opened Pytd
  import opened Visit
  import opened Traversal

  // ---------------------------------------------------------------------
  // Symbol tables

  /** What a unit's `Lookup` can return; a class carries its position, which is its address. */
  datatype Item =
    | ConstItem(c: Constant)
    | TypeParamItem(t: Type)
    | ClassItem(index: nat, cls: Class)
    | FuncItem(f: Function)
    | AliasItem(a: Alias)

  function TypeParamName(t: Type): string {
    if t.TypeParameter? then t.name else ""
  }

  function ItemName(it: Item): string {
    match it
    case ConstItem(c) => c.name
    case TypeParamItem(t) => TypeParamName(t)
    case ClassItem(_, cl) => cl.name
    case FuncItem(f) => f.name
    case AliasItem(a) => a.name
  }

  /** The first position at or after `from` whose element is called `name`. */
  function FirstNamed<X>(xs: seq<X>, key: X -> string, name: string, from: nat := 0): (r: Option<nat>)
    requires from <= |xs|
    ensures r.Some? ==> from <= r.value < |xs| && key(xs[r.value]) == name
    ensures r.Some? ==> forall j :: from <= j < r.value ==> key(xs[j]) != name
    ensures r.None? <==> forall j :: from <= j < |xs| ==> key(xs[j]) != name
    decreases |xs| - from
  {
    if from == |xs| then None
    else if key(xs[from]) == name then Some(from)
    else FirstNamed(xs, key, name, from + 1)
  }

  /** `unit` declares something called `name`. */
  predicate Declares(u: TypeDeclUnit, name: string) {
    (exists i :: 0 <= i < |u.constants| && u.constants[i].name == name)
    || (exists i :: 0 <= i < |u.typeParams| && TypeParamName(u.typeParams[i]) == name)
    || (exists i :: 0 <= i < |u.classes| && u.classes[i].name == name)
    || (exists i :: 0 <= i < |u.functions| && u.functions[i].name == name)
    || (exists i :: 0 <= i < |u.aliases| && u.aliases[i].name == name)
  }

  /**
   * `TypeDeclUnit.Lookup`: the declaration called `name`, searching
   * constants, type parameters, classes, functions and aliases in that
   * order; `KeyError` when there is none.
   */
  function UnitLookup(u: TypeDeclUnit, name: string): (r: Result<Item, PassError>)
    ensures r.Ok? ==> ItemName(r.value) == name
    ensures r.Err? <==> !Declares(u, name)
    ensures r.Err? ==> r.error == KeyError(name)
    ensures r.Ok? && r.value.ClassItem? ==> r.value.index < |u.classes| && u.classes[r.value.index] == r.value.cls
  {
    match FirstNamed(u.constants, (c: Constant) => c.name, name)
    case Some(i) => Ok(ConstItem(u.constants[i]))
    case None =>
      match FirstNamed(u.typeParams, TypeParamName, name)
      case Some(i) => Ok(TypeParamItem(u.typeParams[i]))
      case None =>
        match FirstNamed(u.classes, (c: Class) => c.name, name)
        case Some(i) => Ok(ClassItem(i, u.classes[i]))
        case None =>
          match FirstNamed(u.functions, (f: Function) => f.name, name)
          case Some(i) => Ok(FuncItem(u.functions[i]))
          case None =>
            match FirstNamed(u.aliases, (a: Alias) => a.name, name)
            case Some(i) => Ok(AliasItem(u.aliases[i]))
            case None => Err(KeyError(name))
  }

  /** The class declared at position `i` of a unit is what looking up its name finds, unless an earlier kind of declaration takes the name. */
  lemma LookupFindsClass(u: TypeDeclUnit, i: nat)
    requires i < |u.classes|
    requires forall j :: 0 <= j < i ==> u.classes[j].name != u.classes[i].name
    requires forall j :: 0 <= j < |u.constants| ==> u.constants[j].name != u.classes[i].name
    requires forall j :: 0 <= j < |u.typeParams| ==> TypeParamName(u.typeParams[j]) != u.classes[i].name
    ensures UnitLookup(u, u.classes[i].name) == Ok(ClassItem(i, u.classes[i]))
  {
    var r := FirstNamed(u.classes, (c: Class) => c.name, u.classes[i].name);
    assert r.Some? && r.value <= i;
  }

  /**
   * `_ToType`: a looked-up item used where a type is expected.  A class
   * becomes a ClassType pointing at it in `table`; a constant stays a
   * constant when constants are allowed, otherwise it becomes AnythingType.
   */
  function ToType(it: Item, allowConstants: bool, table: string): (r: Node)
    ensures r.ConstNode? <==> it.ConstItem? && allowConstants
    ensures it.ClassItem? ==> r == TypeNode(ClassType(it.cls.name, Resolved(table, it.index)))
  {
    match it
    case TypeParamItem(t) => TypeNode(t)
    case ClassItem(i, cl) => TypeNode(ClassType(cl.name, Resolved(table, i)))
    case FuncItem(f) => TypeNode(FunctionType(f.name))
    case ConstItem(c) => if allowConstants then ConstNode(c) else TypeNode(AnythingType)
    case AliasItem(a) => TypeNode(a.typ)
  }

  /** With constants disallowed every item becomes a type. */
  lemma ToTypeIsType(it: Item, table: string)
    ensures ToType(it, false, table).TypeNode?
    ensures it.ConstItem? ==> ToType(it, false, table) == TypeNode(AnythingType)
    ensures it.AliasItem? ==> ToType(it, false, table) == TypeNode(it.a.typ)
  {
  }

  // ---------------------------------------------------------------------
  // FillInModuleClasses

  /** The (prefix, module) pairs tried for a class name, in order. */
  function ModulesToTry(name: string): (r: seq<(string, string)>)
    ensures |r| >= 3 && r[|r| - 2] == ("", "*") && r[|r| - 1] == ("__builtin__.", "*")
    ensures RPartition(name).0 != "" ==> r == [("", RPartition(name).0), ("", "*"), ("__builtin__.", "*")]
  {
    var owner := RPartition(name).0;
    var first := if owner != "" then [("", owner)]
      else [("", ""), ("", "__builtin__"), ("__builtin__.", "__builtin__")];
    first + [("", "*"), ("__builtin__.", "*")]
  }

  /** Trying module `attempt.1` with prefix `attempt.0` finds a class. */
  predicate ClassHit(lookup: map<string, TypeDeclUnit>, attempt: (string, string), name: string) {
    attempt.1 in lookup && UnitLookup(lookup[attempt.1], attempt.0 + name).Ok?
    && UnitLookup(lookup[attempt.1], attempt.0 + name).value.ClassItem?
  }

  function HitRef(lookup: map<string, TypeDeclUnit>, attempt: (string, string), name: string): ClassRef
    requires ClassHit(lookup, attempt, name)
  {
    Resolved(attempt.1, UnitLookup(lookup[attempt.1], attempt.0 + name).value.index)
  }

  /** The pointer from the first pair of `tries` that finds a class; a miss or a non-class moves on. */
  function FirstClass(lookup: map<string, TypeDeclUnit>, tries: seq<(string, string)>, name: string): (r: Option<ClassRef>)
    ensures r.None? <==> forall j :: 0 <= j < |tries| ==> !ClassHit(lookup, tries[j], name)
    ensures r.Some? ==>
      exists j :: 0 <= j < |tries| && ClassHit(lookup, tries[j], name)
        && r.value == HitRef(lookup, tries[j], name)
        && forall k :: 0 <= k < j ==> !ClassHit(lookup, tries[k], name)
  {
    if tries == [] then None
    else if ClassHit(lookup, tries[0], name) then Some(HitRef(lookup, tries[0], name))
    else
      var r := FirstClass(lookup, tries[1..], name);
      assert forall j :: 1 <= j < |tries| ==> tries[j] == tries[1..][j - 1];
      if r.Some? then
        var j :| 0 <= j < |tries[1..]| && ClassHit(lookup, tries[1..][j], name)
          && r.value == HitRef(lookup, tries[1..][j], name)
          && forall k :: 0 <= k < j ==> !ClassHit(lookup, tries[1..][k], name);
        assert ClassHit(lookup, tries[j + 1], name);
        r
      else r
  }

  /** The symbol tables after the constructor registers the fallback under `*`. */
  function WithFallback(lookup: map<string, TypeDeclUnit>, fallback: Option<TypeDeclUnit>): map<string, TypeDeclUnit> {
    if fallback.Some? then lookup["*" := fallback.value] else lookup
  }

  /** `EnterClassType`: fill in the pointer of a ClassType, keeping the old one when nothing is found. */
  function FillClassType(lookup: map<string, TypeDeclUnit>, t: Type): Type {
    if t.ClassType? then
      match FirstClass(lookup, ModulesToTry(t.name), t.name)
      case Some(r) => ClassType(t.name, r)
      case None => t
    else t
  }

  /** `n.Visit(FillInModuleClasses(lookup, fallback))` */
  function FillInModuleClasses(lookup: map<string, TypeDeclUnit>, fallback: Option<TypeDeclUnit>, n: Node): Node {
    MapTypes(t => FillClassType(WithFallback(lookup, fallback), t), {KClassType}, n)
  }

  /** A dotted name is looked up in its own module first, under its full name. */
  lemma FillInOwnModuleFirst(lookup: map<string, TypeDeclUnit>, name: string, c: ClassRef, i: nat)
    requires RPartition(name).0 != "" && RPartition(name).0 in lookup
    requires i < |lookup[RPartition(name).0].classes|
    requires UnitLookup(lookup[RPartition(name).0], name) == Ok(ClassItem(i, lookup[RPartition(name).0].classes[i]))
    ensures FillClassType(lookup, ClassType(name, c)) == ClassType(name, Resolved(RPartition(name).0, i))
  {
    var tries := ModulesToTry(name);
    assert ClassHit(lookup, tries[0], name);
    assert "" + name == name;
  }

  /** When no module finds a class the pointer is left as it was; otherwise the name is kept and the pointer set. */
  lemma FillClassTypeKeepsName(lookup: map<string, TypeDeclUnit>, t: Type)
    requires t.ClassType?
    ensures FillClassType(lookup, t).ClassType? && FillClassType(lookup, t).name == t.name
    ensures (forall j :: 0 <= j < |ModulesToTry(t.name)| ==> !ClassHit(lookup, ModulesToTry(t.name)[j], t.name))
      ==> FillClassType(lookup, t) == t
    ensures (exists j :: 0 <= j < |ModulesToTry(t.name)| && ClassHit(lookup, ModulesToTry(t.name)[j], t.name))
      ==> FillClassType(lookup, t).cls.Resolved?
  {
    var r := FirstClass(lookup, ModulesToTry(t.name), t.name);
    if r.Some? {
      var j :| 0 <= j < |ModulesToTry(t.name)| && ClassHit(lookup, ModulesToTry(t.name)[j], t.name)
        && r.value == HitRef(lookup, ModulesToTry(t.name)[j], t.name);
    }
  }

  /** The visitor form: a Visit hook on ClassType; the source sets the pointer in place on Enter. */
  function FillInModuleClassesVisitor(lookup: map<string, TypeDeclUnit>, fallback: Option<TypeDeclUnit>): Visitor<()> {
    NodeMapper(TypeHook(t => FillClassType(WithFallback(lookup, fallback), t)), {KClassType})
  }

  lemma FillInModuleClassesVisit(lookup: map<string, TypeDeclUnit>, fallback: Option<TypeDeclUnit>, n: Node)
    ensures Apply(FillInModuleClassesVisitor(lookup, fallback), (), n) == Ok(((), FillInModuleClasses(lookup, fallback, n)))
  {
    NodeMapperIsMap(TypeHook(t => FillClassType(WithFallback(lookup, fallback), t)), {KClassType}, (), n);
  }

  // ---------------------------------------------------------------------
  // VerifyLookup

  /** A node that VerifyLookup accepts: neither a NamedType nor a ClassType without pointer. */
  predicate Looked(n: Node) {
    !(n.TypeNode? && (n.t.NamedType? || (n.t.ClassType? && n.t.cls.Unresolved?)))
  }

  function VerifyEnter(s: (), n: Node): Result<(), PassError> {
    if n.TypeNode? && n.t.NamedType? then Err(UnresolvedNamedType(n.t.name))
    else if n.TypeNode? && n.t.ClassType? && n.t.cls.Unresolved? then Err(UnresolvedClassType(n.t.name))
    else Ok(s)
  }

  const VerifyLookup: Visitor<()> :=
    Visitor({KNamedType, KClassType}, {}, {}, false, VerifyEnter, (s: (), n: Node) => Ok((s, n)), (s: (), n: Node) => s)

  /** VerifyLookup raises iff some NamedType or pointer-less ClassType is left; it changes nothing. */
  lemma VerifyLookupMeaning(n: Node)
    ensures Apply(VerifyLookup, (), n).Ok? <==> Everywhere(Looked, n)
    ensures Apply(VerifyLookup, (), n).Ok? ==> Apply(VerifyLookup, (), n).value.1 == n
    ensures Apply(VerifyLookup, (), n).Err? ==> IsValueError(Apply(VerifyLookup, (), n).error)
  {
    EnterOnlyIsFold(VerifyLookup, (), n);
    var ns := Preorder(n);
    FoldEnterCheck(VerifyLookup, ns);
    assert forall i :: 0 <= i < |ns| ==> (Looked(ns[i]) <==> (KindOf(ns[i]) in VerifyLookup.enterKinds ==> VerifyLookup.enter((), ns[i]).Ok?));
    if Everywhere(Looked, n) {
      assert forall i :: 0 <= i < |ns| ==> Looked(ns[i]);
    } else {
      var m :| m in ns && !Looked(m);
      FoldEnterError(ns);
    }
  }

  /** The exception VerifyLookup raises is the first offending node's ValueError. */
  lemma {:induction false} FoldEnterError(ns: seq<Node>)
    ensures FoldEnter(VerifyLookup, (), ns).Err? ==> IsValueError(FoldEnter(VerifyLookup, (), ns).error)
  {
    if ns != [] {
      FoldEnterError(ns[1..]);
    }
  }

  // ---------------------------------------------------------------------
  // NamedTypeToClassType

  function NamedToClass(t: Type): Type {
    if t.NamedType? then ClassType(t.name, Unresolved) else t
  }

  /** `n.Visit(NamedTypeToClassType())` */
  function NamedTypeToClassType(n: Node): Node {
    MapTypes(NamedToClass, {KNamedType}, n)
  }

  predicate NotNamed(n: Node) {
    !(n.TypeNode? && n.t.NamedType?)
  }

  /** No NamedType is left afterwards. */
  lemma NamedTypeToClassTypeRemovesNames(n: Node)
    ensures Everywhere(NotNamed, NamedTypeToClassType(n))
  {
    var h := TypeHook(NamedToClass);
    forall m, cs | KindOf(m) !in {KNamedType} && NotNamed(m) && WithChildren(m, cs).Some?
      ensures NotNamed(WithChildren(m, cs).value)
    {
    }
    forall m | m in Preorder(n) && KindOf(m) in {KNamedType} && h(m).Ok?
      ensures Everywhere(NotNamed, h(m).value)
    {
      NamedKind(m);
      assert h(m) == Ok(TypeNode(NamedToClass(m.t)));
      assert NamedToClass(m.t) == ClassType(m.t.name, Unresolved);
      LeafPreorder(h(m).value);
      assert Preorder(h(m).value) == [h(m).value];
    }
    MapNodesEverywhere(h, {KNamedType}, NotNamed, n);
  }

  lemma NamedKind(m: Node)
    requires KindOf(m) == KNamedType
    ensures m.TypeNode? && m.t.NamedType?
  {
    match m
    case TypeNode(t) =>
    case _ =>
  }

  /** A leaf is the only node of its tree. */
  lemma LeafPreorder(n: Node)
    requires KindOf(n) in LeafKinds
    ensures Preorder(n) == [n]
  {
    LeafNoChildren(n);
  }

  // ---------------------------------------------------------------------
  // LookupExternalTypes

  /** The visitor's configuration: symbol tables by module, and whether they use full names. */
  datatype External = External(moduleMap: map<string, TypeDeclUnit>, fullNames: bool, selfName: Option<string>)

  /**
   * `_ResolveUsingGetattr`: the return type of the module's `__getattr__`,
   * `None` when it has none.  One that is not a function with exactly one
   * signature is an error.
   */
  function ResolveUsingGetattr(x: External, moduleName: string, unit: TypeDeclUnit): (r: Result<Option<Type>, PassError>)
    ensures r.Ok? && r.value.Some? ==>
      (exists f :: UnitLookup(unit, GetattrName(x, moduleName)) == Ok(FuncItem(f))
        && |f.signatures| == 1 && f.signatures[0].returnType == r.value.value)
    ensures r == Ok(None) <==> UnitLookup(unit, GetattrName(x, moduleName)).Err?
  {
    match UnitLookup(unit, GetattrName(x, moduleName))
    case Err(_) => Ok(None)
    case Ok(FuncItem(f)) =>
      if |f.signatures| == 1 then Ok(Some(f.signatures[0].returnType)) else Err(BadGetattr(moduleName))
    case Ok(_) => Err(BadGetattr(moduleName))
  }

  function GetattrName(x: External, moduleName: string): string {
    if x.fullNames then moduleName + ".__getattr__" else "__getattr__"
  }

  /**
   * `VisitNamedType` of LookupExternalTypes for the name `name`: `None`
   * means the node is returned unchanged.
   */
  function ResolveExternal(x: External, name: string, inConstant: bool): (r: Result<Option<Node>, PassError>)
    ensures name in x.moduleMap ==> r == Ok(Some(TypeNode(AnythingType)))
    ensures name !in x.moduleMap && ('.' !in name || Some(RPartition(name).0) == x.selfName) ==> r == Ok(None)
    ensures r.Err? && name !in x.moduleMap ==> '.' in name
  {
    if name in x.moduleMap then Ok(Some(TypeNode(AnythingType)))
    else
      RPartitionParts(name);
      var (moduleName, dot, short) := RPartition(name);
      if dot == "" || Some(moduleName) == x.selfName then Ok(None)
      else if moduleName !in x.moduleMap then Err(KeyError("Unknown module " + moduleName))
      else
        var unit := x.moduleMap[moduleName];
        match UnitLookup(unit, if x.fullNames then moduleName + "." + short else short)
        case Ok(it) => Ok(Some(ToType(it, !inConstant, moduleName)))
        case Err(_) =>
          var g :- ResolveUsingGetattr(x, moduleName, unit);
          if g.None? then Err(KeyError("No " + short + " in module " + moduleName))
          else Ok(Some(TypeNode(g.value)))
  }

  /** With full names, a dotted name whose module declares a class under that name resolves to that class. */
  lemma ResolveExternalClass(x: External, name: string, inConstant: bool, i: nat)
    requires x.fullNames && name !in x.moduleMap && '.' in name && Some(RPartition(name).0) != x.selfName
    requires RPartition(name).0 in x.moduleMap
    requires UnitLookup(x.moduleMap[RPartition(name).0], name).Ok?
    requires UnitLookup(x.moduleMap[RPartition(name).0], name).value.ClassItem?
    ensures ResolveExternal(x, name, inConstant)
      == Ok(Some(TypeNode(ClassType(name, Resolved(RPartition(name).0, UnitLookup(x.moduleMap[RPartition(name).0], name).value.index)))))
  {
    RPartitionParts(name);
  }

  /** `VisitClassType`: a ClassType result only lends its pointer; the node keeps its own name. */
  function ExternalClassType(x: External, t: Type, inConstant: bool): Result<Node, PassError>
    requires t.ClassType?
  {
    var r :- ResolveExternal(x, t.name, inConstant);
    match r
    case None => Ok(TypeNode(t))
    case Some(m) => if m.TypeNode? && m.t.ClassType? then Ok(TypeNode(ClassType(t.name, m.t.cls))) else Ok(m)
  }

  function ExternalVisit(x: External, inConstant: bool, n: Node): Result<(bool, Node), PassError> {
    if n.TypeNode? && n.t.NamedType? then
      var r :- ResolveExternal(x, n.t.name, inConstant);
      Ok((inConstant, if r.Some? then r.value else n))
    else if n.TypeNode? && n.t.ClassType? then
      var m :- ExternalClassType(x, n.t, inConstant);
      Ok((inConstant, m))
    else Ok((inConstant, n))
  }

  /** The visitor; its state is `_in_constant`, set between EnterConstant and LeaveConstant. */
  function LookupExternalTypes(x: External): Visitor<bool> {
    Visitor({KConstant}, {KNamedType, KClassType}, {KConstant}, false,
      (s: bool, n: Node) => Ok(true),
      (s: bool, n: Node) => ExternalVisit(x, s, n),
      (s: bool, n: Node) => false)
  }

  /**
   * Inside a constant a name that resolves to another module's constant
   * becomes AnythingType, and the visitor leaves the constant outside
   * again.
   */
  lemma ConstantOfConstant(x: External, c: Constant, moduleName: string, k: Constant)
    requires c.typ.NamedType? && c.typ.name !in x.moduleMap && Some(moduleName) != x.selfName
    requires RPartition(c.typ.name) == (moduleName, ".", k.name) && moduleName in x.moduleMap
    requires !x.fullNames && UnitLookup(x.moduleMap[moduleName], k.name) == Ok(ConstItem(k))
    ensures Apply(LookupExternalTypes(x), false, ConstNode(c)) == Ok((false, ConstNode(c.(typ := AnythingType))))
  {
    var v := LookupExternalTypes(x);
    VisitSetMeaningAt(v, KConstant);
    VisitSetMeaningAt(v, KNamedType);
    var child := TypeNode(c.typ);
    ExternalConstantChild(x, c.typ, moduleName, k);
    ConstantListStep(v, c, TypeNode(AnythingType));
    ConstantFinishStep(x, c);
    assert Children(ConstNode(c)) == [child];
    assert v.enter(false, ConstNode(c)) == Ok(true);
    assert RwVisited(v, false, ConstNode(c), true) == RwFinish(v, ConstNode(c), true, [TypeNode(AnythingType)]);
  }

  lemma ConstantListStep(v: Visitor<bool>, c: Constant, r: Node)
    requires Rw(v, true, TypeNode(c.typ), true) == Ok((true, r))
    ensures RwList(v, true, [TypeNode(c.typ)], true, ConstNode(c)) == Ok((true, [r]))
  {
    RwListSingle(v, true, TypeNode(c.typ), true, ConstNode(c));
  }

  lemma ConstantFinishStep(x: External, c: Constant)
    ensures RwFinish(LookupExternalTypes(x), ConstNode(c), true, [TypeNode(AnythingType)])
      == Ok((false, ConstNode(c.(typ := AnythingType))))
  {
    assert Rebuild(ConstNode(c), [TypeNode(AnythingType)]) == Ok(ConstNode(c.(typ := AnythingType)));
  }

  lemma ExternalConstantChild(x: External, t: Type, moduleName: string, k: Constant)
    requires t.NamedType? && t.name !in x.moduleMap && Some(moduleName) != x.selfName
    requires RPartition(t.name) == (moduleName, ".", k.name) && moduleName in x.moduleMap
    requires !x.fullNames && UnitLookup(x.moduleMap[moduleName], k.name) == Ok(ConstItem(k))
    ensures Rw(LookupExternalTypes(x), true, TypeNode(t), true) == Ok((true, TypeNode(AnythingType)))
  {
    var v := LookupExternalTypes(x);
    VisitSetMeaningAt(v, KNamedType);
    assert ResolveExternal(x, t.name, true) == Ok(Some(TypeNode(AnythingType)));
    assert ExternalVisit(x, true, TypeNode(t)) == Ok((true, TypeNode(AnythingType)));
    assert Children(TypeNode(t)) == [];
    assert Rebuild(TypeNode(t), []) == Ok(TypeNode(t));
    assert RwFinish(v, TypeNode(t), true, []) == Ok((true, TypeNode(AnythingType)));
    assert RwList(v, true, [], true, TypeNode(t)) == Ok((true, []));
    assert KNamedType !in v.enterKinds;
    assert RwVisited(v, true, TypeNode(t), true) == RwFinish(v, TypeNode(t), true, []);
  }

  /** Both a Constant node and a NamedType node are descended into by a visitor with a NamedType hook. */
  lemma VisitSetMeaningAt(v: Visitor<bool>, k: Kind)
    requires v.visitKinds == {KNamedType, KClassType} && !v.overridesDispatch
    requires k == KConstant || k == KNamedType
    ensures Visits(VisitSetOf(v), k)
  {
    var names := HandlerNames(v);
    assert KindName(KNamedType) in names;
    KindNamedName(KNamedType);
    if VisitSetOf(v).Only? {
      VisitSetMeaning(v, k);
      assert KNamedType in Closure({k}) by {
        var c := Closure({k});
        assert k in c;
        if k == KConstant {
          assert k in {k} && KNamedType in Contains(k);
          assert KNamedType in Succ({k});
          SuccMonotone({k}, c);
        }
      }
    }
  }

  // ---------------------------------------------------------------------
  // LookupLocalTypes

  /**
   * `VisitNamedType` of LookupLocalTypes in `u`: an undotted name is
   * looked up under the unit's prefix and then bare; a name in the unit's
   * own module is looked up as it is; other names are left alone.
   */
  function ResolveLocal(u: TypeDeclUnit, name: string): (r: Result<Node, PassError>)
    ensures r.Ok? ==> r.value.TypeNode?
    ensures r.Err? ==> r.error.SymbolLookupError? || r.error.KeyError?
    ensures '.' in name && RPartition(name).0 != u.name ==> r == Ok(TypeNode(NamedType(name)))
    // an undotted name: first under the unit's prefix, then bare
    ensures '.' !in name && Declares(u, u.name + "." + name) ==>
      r == Ok(ToType(UnitLookup(u, u.name + "." + name).value, false, u.name))
    ensures '.' !in name && !Declares(u, u.name + "." + name) && Declares(u, name) ==>
      r == Ok(ToType(UnitLookup(u, name).value, false, u.name))
    ensures '.' !in name ==>
      (r.Err? <==> !Declares(u, u.name + "." + name) && !Declares(u, name))
      && (r.Err? ==> r.error == SymbolLookupError(name))
    // a name in the unit's own module: looked up as it is
    ensures '.' in name && RPartition(name).0 == u.name ==>
      (Declares(u, name) ==> r == Ok(ToType(UnitLookup(u, name).value, false, u.name)))
      && (!Declares(u, name) ==> r == Err(KeyError(name)))
  {
    RPartitionParts(name);
    var (moduleName, dot, _) := RPartition(name);
    if dot == "" then
      match UnitLookup(u, u.name + "." + name)
      case Ok(it) => ToTypeIsType(it, u.name); Ok(ToType(it, false, u.name))
      case Err(_) =>
        match UnitLookup(u, name)
        case Ok(it) => ToTypeIsType(it, u.name); Ok(ToType(it, false, u.name))
        case Err(_) => Err(SymbolLookupError(name))
    else if moduleName == u.name then
      var it :- UnitLookup(u, name);
      ToTypeIsType(it, u.name);
      Ok(ToType(it, false, u.name))
    else Ok(TypeNode(NamedType(name)))
  }

  function LocalHook(u: TypeDeclUnit): Node -> Result<Node, PassError> {
    (n: Node) => if n.TypeNode? && n.t.NamedType? then ResolveLocal(u, n.t.name) else Ok(n)
  }

  /** `u.Visit(LookupLocalTypes())`; the unit the visitor keeps from EnterTypeDeclUnit is `u` itself. */
  function LookupLocalTypes(u: TypeDeclUnit): Result<Node, PassError> {
    MapNodes(LocalHook(u), {KNamedType}, UnitNode(u))
  }

  /** LookupLocalTypes fails only with a lookup error, and then some name is missing. */
  lemma LookupLocalTypesErrors(u: TypeDeclUnit)
    ensures LookupLocalTypes(u).Ok? ==>
      LookupLocalTypes(u).value.UnitNode? && LookupLocalTypes(u).value.u.name == u.name
    ensures LookupLocalTypes(u).Err? ==> LookupLocalTypes(u).error.SymbolLookupError? || LookupLocalTypes(u).error.KeyError?
  {
    var h := LocalHook(u);
    assert forall m :: h(m).Ok? ==> SameCategory(h(m).value, m);
    MapNodesKeeps(h, {KNamedType}, UnitNode(u));
    var r := LookupLocalTypes(u);
    if r.Err? {
      var m :| h(m) == Err(r.error);
    }
  }
}
