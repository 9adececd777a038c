/**
 * AddNamePrefix: make the names a module defines fully qualified.  The
 * visitor remembers the unit's name and class names on entering the unit,
 * and whether it is inside a class; class attributes keep their names,
 * module-level definitions and references to local classes get the prefix.
 */
module Prefix {
  import opened Wrappers
  import opened Pytd
  import opened Visit
  import opened Traversal
  import opened Scopes

  /** The visitor's fields: `prefix` (the unit name and a dot), `classes`, and whether `cls` is set. */
  datatype PrefixState = PrefixState(prefix: string, classes: set<string>, inClass: bool)

  const Initial := PrefixState("", {}, false)

  const ScopeKinds: set<Kind> := {KUnit, KClass}

  function ClassNames(cs: seq<Class>): set<string> {
    set c | c in cs :: c.name
  }

  /** A reference to a local class gets the prefix; any other name is kept. */
  function Qualify(s: PrefixState, name: string): string {
    if name in s.classes then s.prefix + name else name
  }

  /** `x[:-1]` */
  function DropLast(x: string): string {
    if |x| == 0 then "" else x[..|x| - 1]
  }

  function PrefixEnter(s: PrefixState, n: Node): Result<PrefixState, PassError> {
    match n
    case UnitNode(u) => Ok(PrefixState(u.name + ".", ClassNames(u.classes), s.inClass))
    case ClassNode(_) => Ok(s.(inClass := true))
    case _ => Ok(s)
  }

  function PrefixLeave(s: PrefixState, n: Node): PrefixState {
    if n.ClassNode? then s.(inClass := false) else s
  }

  function PrefixVisit(s: PrefixState, n: Node): Result<(PrefixState, Node), PassError> {
    match n
    case TypeNode(NamedType(name)) => Ok((s, TypeNode(NamedType(Qualify(s, name)))))
    case TypeNode(ClassType(name, cls)) =>
      if cls.Resolved? then Err(PointerAlreadySet(name))
      else Ok((s, TypeNode(ClassType(Qualify(s, name), cls))))
    case TypeNode(TypeParameter(name, cs, b, scope)) =>
      var scope' := if scope.Some? then s.prefix + scope.value else DropLast(s.prefix);
      Ok((s, TypeNode(TypeParameter(name, cs, b, Some(scope')))))
    case ClassNode(c) => Ok((s, ClassNode(c.(name := s.prefix + c.name))))
    case FuncNode(f) => Ok((s, if s.inClass then n else FuncNode(f.(name := s.prefix + f.name))))
    case ConstNode(c) => Ok((s, if s.inClass then n else ConstNode(c.(name := s.prefix + c.name))))
    case AliasNode(a) => Ok((s, if s.inClass then n else AliasNode(a.(name := s.prefix + a.name))))
    case _ => Ok((s, n))
  }

  function AddNamePrefixVisitor(): Visitor<PrefixState> {
    Visitor(ScopeKinds, VisitKinds, {KClass}, false, PrefixEnter, PrefixVisit, PrefixLeave)
  }

  /** The kinds with a Visit handler. */
  const VisitKinds: set<Kind> :=
    {KNamedType, KClassType, KTypeParameter, KClass, KFunction, KExternalFunction, KConstant, KAlias}

  /** The state once the unit has been entered. */
  function TopState(u: TypeDeclUnit): PrefixState {
    PrefixState(u.name + ".", ClassNames(u.classes), false)
  }

  /** `unit.Visit(AddNamePrefix())` */
  function AddNamePrefix(u: TypeDeclUnit): Result<Node, PassError> {
    var r :- Apply(AddNamePrefixVisitor(), Initial, UnitNode(u));
    Ok(r.1)
  }

  /** A pointer that has already been resolved, which the pass refuses. */
  predicate ResolvedPointer(m: Node) {
    m.TypeNode? && m.t.ClassType? && m.t.cls.Resolved?
  }

  // ---------------------------------------------------------------------
  // The traversal, level by level

  lemma AlwaysFrozen(s: PrefixState)
    ensures Frozen(AddNamePrefixVisitor(), s, ScopeKinds)
  {
  }

  /** The kinds that can occur beneath a constant, alias, function or class member. */
  const Members: set<Kind> := TypeKinds + {KConstant, KAlias, KFunction, KExternalFunction, KSignature, KParameter}

  lemma NoScopeBeneath(n: Node)
    requires KindOf(n) in Members
    ensures !OccursIn(ScopeKinds, n)
  {
    NotBeneath(ScopeKinds, Members, n);
  }

  /** The hook, as a stateless function of the node, in the state of module level or of class bodies. */
  function Hook(s: PrefixState): Node -> Result<Node, PassError> {
    VisitAt(AddNamePrefixVisitor(), s)
  }

  /** The state a child of the unit is rewritten in. */
  function StateFor(u: TypeDeclUnit, c: Node): PrefixState {
    if KindOf(c) in ScopeKinds then TopState(u).(inClass := true) else TopState(u)
  }

  function Levels(u: TypeDeclUnit): Result<seq<Node>, PassError> {
    var v := AddNamePrefixVisitor();
    LevelMap(v, TopState(u), TopState(u).(inClass := true), ScopeKinds, Children(UnitNode(u)))
  }

  lemma MembersFree(u: TypeDeclUnit)
    ensures forall c :: c in Children(UnitNode(u)) && KindOf(c) !in ScopeKinds ==> !OccursIn(ScopeKinds, c)
  {
    ChildKinds(UnitNode(u));
    forall c | c in Children(UnitNode(u)) && KindOf(c) !in ScopeKinds
      ensures !OccursIn(ScopeKinds, c)
    {
      NoScopeBeneath(c);
    }
  }

  lemma ClassBodiesFree(u: TypeDeclUnit)
    ensures forall c, d :: c in Children(UnitNode(u)) && KindOf(c) in ScopeKinds && d in Children(c) ==> !OccursIn(ScopeKinds, d)
  {
    forall c, d | c in Children(UnitNode(u)) && KindOf(c) in ScopeKinds && d in Children(c)
      ensures !OccursIn(ScopeKinds, d)
    {
      ChildKinds(UnitNode(u));
      ChildKinds(c);
      NoScopeBeneath(d);
    }
  }

  lemma ClassEnterLeave(u: TypeDeclUnit, c: Node)
    requires c in Children(UnitNode(u)) && KindOf(c) in ScopeKinds
    ensures var v := AddNamePrefixVisitor(); var top := TopState(u); var inner := top.(inClass := true);
      KindOf(c) in v.enterKinds && v.enter(top, c) == Ok(inner) && KindOf(c) in v.leaveKinds && v.leave(inner, c) == top
  {
    ChildKinds(UnitNode(u));
    assert c.ClassNode?;
  }

  /** The children of a unit meet the conditions of `LevelList`. */
  lemma UnitLevels(u: TypeDeclUnit)
    ensures var v := AddNamePrefixVisitor(); var top := TopState(u); var inner := top.(inClass := true);
      Frozen(v, top, ScopeKinds) && Frozen(v, inner, ScopeKinds)
      && (forall c :: c in Children(UnitNode(u)) && KindOf(c) !in ScopeKinds ==> !OccursIn(ScopeKinds, c))
      && (forall c :: c in Children(UnitNode(u)) && KindOf(c) in ScopeKinds ==>
        KindOf(c) in v.enterKinds && v.enter(top, c) == Ok(inner) && KindOf(c) in v.leaveKinds && v.leave(inner, c) == top
        && forall d :: d in Children(c) ==> !OccursIn(ScopeKinds, d))
  {
    AlwaysFrozen(TopState(u));
    AlwaysFrozen(TopState(u).(inClass := true));
    MembersFree(u);
    ClassBodiesFree(u);
    forall c | c in Children(UnitNode(u)) && KindOf(c) in ScopeKinds
      ensures var v := AddNamePrefixVisitor(); var top := TopState(u); var inner := top.(inClass := true);
        KindOf(c) in v.enterKinds && v.enter(top, c) == Ok(inner) && KindOf(c) in v.leaveKinds && v.leave(inner, c) == top
    {
      ClassEnterLeave(u, c);
    }
  }

  /**
   * The pass on a unit: each child of the unit is rewritten bottom-up by the
   * hook, classes in the class-body state and the rest at module level.
   */
  lemma AddNamePrefixLevels(u: TypeDeclUnit)
    ensures AddNamePrefix(u) == (var cs :- Levels(u); Rebuild(UnitNode(u), cs))
  {
    var v := AddNamePrefixVisitor();
    var n := UnitNode(u);
    var top := TopState(u);
    var inner := top.(inClass := true);
    PruningSound(v, Initial, n);
    assert v.enter(Initial, n) == Ok(top);
    ChildrenSmaller(n);
    UnitLevels(u);
    LevelList(v, top, inner, ScopeKinds, Children(n), n);
    var l := Levels(u);
    assert RwList(v, top, Children(n), false, n) == WithState(l, top);
    if l.Ok? {
      assert Rw(v, Initial, n, false) == RwFinish(v, n, top, l.value);
    }
  }

  lemma HookIs(s: PrefixState, m: Node)
    ensures Hook(s)(m) == match PrefixVisit(s, m) case Ok(r) => Ok(r.1) case Err(e) => Err(e)
  {
  }

  /** The hook keeps each node's category and raises only on resolved pointers. */
  lemma HookShape(s: PrefixState)
    ensures forall m :: Hook(s)(m).Ok? ==> SameCategory(Hook(s)(m).value, m)
    ensures forall m :: Hook(s)(m).Err? ==> KindOf(m) in LeafKinds && ResolvedPointer(m) && Hook(s)(m).error.PointerAlreadySet?
  {
    forall m
      ensures Hook(s)(m).Ok? ==> SameCategory(Hook(s)(m).value, m)
      ensures Hook(s)(m).Err? ==> KindOf(m) in LeafKinds && ResolvedPointer(m) && Hook(s)(m).error.PointerAlreadySet?
    {
      HookIs(s, m);
    }
  }

  /** The hook raises on every resolved pointer. */
  lemma HookRaises(s: PrefixState)
    ensures forall m :: ResolvedPointer(m) ==> KindOf(m) in VisitKinds && KindOf(m) in LeafKinds && Hook(s)(m).Err?
  {
    forall m | ResolvedPointer(m)
      ensures KindOf(m) in VisitKinds && KindOf(m) in LeafKinds && Hook(s)(m).Err?
    {
      HookIs(s, m);
    }
  }

  /** `r` has the unit's shape and its `k`-th child is the rewritten `k`-th child of `u`. */
  ghost predicate LevelOk(u: TypeDeclUnit, r: Node, k: nat) {
    r.UnitNode? && |Children(r)| == |Children(UnitNode(u))|
    && |r.u.constants| == |u.constants| && |r.u.typeParams| == |u.typeParams| && |r.u.classes| == |u.classes|
    && |r.u.functions| == |u.functions| && |r.u.aliases| == |u.aliases|
    && k < |Children(UnitNode(u))|
    && MapNodes(Hook(StateFor(u, Children(UnitNode(u))[k])), VisitKinds, Children(UnitNode(u))[k]) == Ok(Children(r)[k])
  }

  /** Rewriting the unit's `k`-th child. */
  lemma LevelAt(u: TypeDeclUnit, k: nat)
    requires AddNamePrefix(u).Ok? && k < |Children(UnitNode(u))|
    ensures LevelOk(u, AddNamePrefix(u).value, k)
  {
    AddNamePrefixLevels(u);
    var cs := Levels(u).value;
    var top := TopState(u);
    LevelMapAt(AddNamePrefixVisitor(), top, top.(inClass := true), ScopeKinds, Children(UnitNode(u)), k);
    RebuiltChildren(UnitNode(u), cs);
    RebuildUnitShape(u, cs);
  }

  lemma ConstantResult(u: TypeDeclUnit, i: nat)
    requires AddNamePrefix(u).Ok? && i < |u.constants|
    ensures var r := AddNamePrefix(u).value;
      r.UnitNode? && i < |r.u.constants|
      && MapNodes(Hook(TopState(u)), VisitKinds, ConstNode(u.constants[i])) == Ok(ConstNode(r.u.constants[i]))
  {
    LevelAt(u, i);
    ConstantResultOf(u, AddNamePrefix(u).value, i);
  }

  lemma ConstantResultOf(u: TypeDeclUnit, r: Node, i: nat)
    requires i < |u.constants| && LevelOk(u, r, i)
    ensures r.UnitNode? && i < |r.u.constants|
    ensures MapNodes(Hook(TopState(u)), VisitKinds, ConstNode(u.constants[i])) == Ok(ConstNode(r.u.constants[i]))
  {
    UnitConstantAt(u, i);
    UnitConstantAt(r.u, i);
  }

  lemma TypeParamResult(u: TypeDeclUnit, i: nat)
    requires AddNamePrefix(u).Ok? && i < |u.typeParams|
    ensures var r := AddNamePrefix(u).value;
      r.UnitNode? && i < |r.u.typeParams|
      && MapNodes(Hook(TopState(u)), VisitKinds, TypeNode(u.typeParams[i])) == Ok(TypeNode(r.u.typeParams[i]))
  {
    LevelAt(u, |u.constants| + i);
    TypeParamResultOf(u, AddNamePrefix(u).value, i);
  }

  lemma TypeParamResultOf(u: TypeDeclUnit, r: Node, i: nat)
    requires i < |u.typeParams| && LevelOk(u, r, |u.constants| + i)
    ensures r.UnitNode? && i < |r.u.typeParams|
    ensures MapNodes(Hook(TopState(u)), VisitKinds, TypeNode(u.typeParams[i])) == Ok(TypeNode(r.u.typeParams[i]))
  {
    UnitTypeParamAt(u, i);
    UnitTypeParamAt(r.u, i);
    StateForType(u, u.typeParams[i]);
  }

  lemma StateForType(u: TypeDeclUnit, t: Type)
    ensures StateFor(u, TypeNode(t)) == TopState(u)
  {
    assert TypeKind(t) in TypeKinds;
  }

  /** Classes are rewritten in the class-body state. */
  lemma ClassResult(u: TypeDeclUnit, i: nat)
    requires AddNamePrefix(u).Ok? && i < |u.classes|
    ensures var r := AddNamePrefix(u).value;
      r.UnitNode? && i < |r.u.classes|
      && MapNodes(Hook(TopState(u).(inClass := true)), VisitKinds, ClassNode(u.classes[i])) == Ok(ClassNode(r.u.classes[i]))
  {
    LevelAt(u, |u.constants| + |u.typeParams| + i);
    ClassResultOf(u, AddNamePrefix(u).value, i);
  }

  lemma ClassResultOf(u: TypeDeclUnit, r: Node, i: nat)
    requires i < |u.classes| && LevelOk(u, r, |u.constants| + |u.typeParams| + i)
    ensures r.UnitNode? && i < |r.u.classes|
    ensures MapNodes(Hook(TopState(u).(inClass := true)), VisitKinds, ClassNode(u.classes[i])) == Ok(ClassNode(r.u.classes[i]))
  {
    UnitClassAt(u, i);
    UnitClassAt(r.u, i);
  }

  lemma FunctionResult(u: TypeDeclUnit, i: nat)
    requires AddNamePrefix(u).Ok? && i < |u.functions|
    ensures var r := AddNamePrefix(u).value;
      r.UnitNode? && i < |r.u.functions|
      && MapNodes(Hook(TopState(u)), VisitKinds, FuncNode(u.functions[i])) == Ok(FuncNode(r.u.functions[i]))
  {
    LevelAt(u, |u.constants| + |u.typeParams| + |u.classes| + i);
    FunctionResultOf(u, AddNamePrefix(u).value, i);
  }

  lemma FunctionResultOf(u: TypeDeclUnit, r: Node, i: nat)
    requires i < |u.functions| && LevelOk(u, r, |u.constants| + |u.typeParams| + |u.classes| + i)
    ensures r.UnitNode? && i < |r.u.functions|
    ensures MapNodes(Hook(TopState(u)), VisitKinds, FuncNode(u.functions[i])) == Ok(FuncNode(r.u.functions[i]))
  {
    UnitFunctionAt(u, i);
    UnitFunctionAt(r.u, i);
  }

  lemma AliasResult(u: TypeDeclUnit, i: nat)
    requires AddNamePrefix(u).Ok? && i < |u.aliases|
    ensures var r := AddNamePrefix(u).value;
      r.UnitNode? && i < |r.u.aliases|
      && MapNodes(Hook(TopState(u)), VisitKinds, AliasNode(u.aliases[i])) == Ok(AliasNode(r.u.aliases[i]))
  {
    LevelAt(u, |u.constants| + |u.typeParams| + |u.classes| + |u.functions| + i);
    AliasResultOf(u, AddNamePrefix(u).value, i);
  }

  lemma AliasResultOf(u: TypeDeclUnit, r: Node, i: nat)
    requires i < |u.aliases| && LevelOk(u, r, |u.constants| + |u.typeParams| + |u.classes| + |u.functions| + i)
    ensures r.UnitNode? && i < |r.u.aliases|
    ensures MapNodes(Hook(TopState(u)), VisitKinds, AliasNode(u.aliases[i])) == Ok(AliasNode(r.u.aliases[i]))
  {
    UnitAliasAt(u, i);
    UnitAliasAt(r.u, i);
  }

  // ---------------------------------------------------------------------
  // What the pass does to names

  /** The name a named node gets from the hook in state `s`. */
  function Renamed(s: PrefixState, n: Node): Option<string> {
    match n
    case ClassNode(c) => Some(s.prefix + c.name)
    case FuncNode(f) => Some(if s.inClass then f.name else s.prefix + f.name)
    case ConstNode(c) => Some(if s.inClass then c.name else s.prefix + c.name)
    case AliasNode(a) => Some(if s.inClass then a.name else s.prefix + a.name)
    case _ => NameOf(n)
  }

  lemma RenamedByMap(s: PrefixState, n: Node)
    requires MapNodes(Hook(s), VisitKinds, n).Ok?
    ensures NameOf(MapNodes(Hook(s), VisitKinds, n).value) == Renamed(s, n)
  {
    var ks := VisitKinds;
    MapNodesRoot(Hook(s), ks, n);
    var cs :| WithChildren(n, cs).Some?
      && MapNodes(Hook(s), ks, n) == (if KindOf(n) in ks then Hook(s)(WithChildren(n, cs).value) else Ok(WithChildren(n, cs).value));
    WithChildrenKeepsName(n, cs);
    RenamedRebuilt(s, WithChildren(n, cs).value, n);
  }

  lemma RenamedRebuilt(s: PrefixState, m: Node, n: Node)
    requires KindOf(m) == KindOf(n) && NameOf(m) == NameOf(n)
    ensures var x := if KindOf(n) in VisitKinds then Hook(s)(m) else Ok(m);
      x.Ok? ==> NameOf(x.value) == Renamed(s, n)
  {
    HookIs(s, m);
  }

  /**
   * The unit keeps its name; every module-level constant, class, function
   * and alias is renamed to the unit name, a dot, and its old name.
   */
  lemma AddNamePrefixNames(u: TypeDeclUnit)
    requires AddNamePrefix(u).Ok?
    ensures var r := AddNamePrefix(u).value; var p := u.name + ".";
      r.UnitNode? && r.u.name == u.name
      && |r.u.constants| == |u.constants| && |r.u.classes| == |u.classes|
      && |r.u.functions| == |u.functions| && |r.u.aliases| == |u.aliases|
      && (forall i :: 0 <= i < |u.constants| ==> r.u.constants[i].name == p + u.constants[i].name)
      && (forall i :: 0 <= i < |u.classes| ==> r.u.classes[i].name == p + u.classes[i].name)
      && (forall i :: 0 <= i < |u.functions| ==> r.u.functions[i].name == p + u.functions[i].name)
      && (forall i :: 0 <= i < |u.aliases| ==> r.u.aliases[i].name == p + u.aliases[i].name)
  {
    UnitShapeKept(u);
    ConstantsRenamed(u);
    ClassesRenamed(u);
    FunctionsRenamed(u);
    AliasesRenamed(u);
  }

  lemma UnitShapeKept(u: TypeDeclUnit)
    requires AddNamePrefix(u).Ok?
    ensures var r := AddNamePrefix(u).value;
      r.UnitNode? && r.u.name == u.name
      && |r.u.constants| == |u.constants| && |r.u.classes| == |u.classes|
      && |r.u.functions| == |u.functions| && |r.u.aliases| == |u.aliases|
  {
    AddNamePrefixLevels(u);
    var cs := Levels(u).value;
    assert AddNamePrefix(u) == Rebuild(UnitNode(u), cs);
    assert WithChildren(UnitNode(u), cs).Some?;
    RebuildUnitShape(u, cs);
    assert AddNamePrefix(u).value == WithChildren(UnitNode(u), cs).value;
  }

  lemma ConstantsRenamed(u: TypeDeclUnit)
    requires AddNamePrefix(u).Ok?
    ensures var r := AddNamePrefix(u).value;
      r.UnitNode? && forall i :: 0 <= i < |u.constants| ==> i < |r.u.constants| && r.u.constants[i].name == u.name + "." + u.constants[i].name
  {
    var r := AddNamePrefix(u).value;
    UnitShapeKept(u);
    forall i | 0 <= i < |u.constants|
      ensures i < |r.u.constants| && r.u.constants[i].name == u.name + "." + u.constants[i].name
    {
      ConstantResult(u, i);
      RenamedByMap(TopState(u), ConstNode(u.constants[i]));
    }
  }

  lemma ClassesRenamed(u: TypeDeclUnit)
    requires AddNamePrefix(u).Ok?
    ensures var r := AddNamePrefix(u).value;
      r.UnitNode? && forall i :: 0 <= i < |u.classes| ==> i < |r.u.classes| && r.u.classes[i].name == u.name + "." + u.classes[i].name
  {
    var r := AddNamePrefix(u).value;
    UnitShapeKept(u);
    forall i | 0 <= i < |u.classes|
      ensures i < |r.u.classes| && r.u.classes[i].name == u.name + "." + u.classes[i].name
    {
      ClassResult(u, i);
      RenamedByMap(TopState(u).(inClass := true), ClassNode(u.classes[i]));
    }
  }

  lemma FunctionsRenamed(u: TypeDeclUnit)
    requires AddNamePrefix(u).Ok?
    ensures var r := AddNamePrefix(u).value;
      r.UnitNode? && forall i :: 0 <= i < |u.functions| ==> i < |r.u.functions| && r.u.functions[i].name == u.name + "." + u.functions[i].name
  {
    var r := AddNamePrefix(u).value;
    UnitShapeKept(u);
    forall i | 0 <= i < |u.functions|
      ensures i < |r.u.functions| && r.u.functions[i].name == u.name + "." + u.functions[i].name
    {
      FunctionResult(u, i);
      RenamedByMap(TopState(u), FuncNode(u.functions[i]));
    }
  }

  lemma AliasesRenamed(u: TypeDeclUnit)
    requires AddNamePrefix(u).Ok?
    ensures var r := AddNamePrefix(u).value;
      r.UnitNode? && forall i :: 0 <= i < |u.aliases| ==> i < |r.u.aliases| && r.u.aliases[i].name == u.name + "." + u.aliases[i].name
  {
    var r := AddNamePrefix(u).value;
    UnitShapeKept(u);
    forall i | 0 <= i < |u.aliases|
      ensures i < |r.u.aliases| && r.u.aliases[i].name == u.name + "." + u.aliases[i].name
    {
      AliasResult(u, i);
      RenamedByMap(TopState(u), AliasNode(u.aliases[i]));
    }
  }

  /** Methods and constants of a class keep their names. */
  lemma AddNamePrefixKeepsMembers(u: TypeDeclUnit, i: nat)
    requires AddNamePrefix(u).Ok? && i < |u.classes|
    ensures var r := AddNamePrefix(u).value; var cl := u.classes[i];
      r.UnitNode? && i < |r.u.classes|
      && |r.u.classes[i].methods| == |cl.methods| && |r.u.classes[i].constants| == |cl.constants|
      && (forall j :: 0 <= j < |cl.methods| ==> r.u.classes[i].methods[j].name == cl.methods[j].name)
      && (forall j :: 0 <= j < |cl.constants| ==> r.u.classes[i].constants[j].name == cl.constants[j].name)
  {
    ClassResult(u, i);
    var s := TopState(u).(inClass := true);
    var out := AddNamePrefix(u).value.u.classes[i];
    MembersKept(s, u.classes[i], out);
  }

  /** The class-body state keeps member names, and the class hook only renames the class. */
  lemma MembersKept(s: PrefixState, cl: Class, out: Class)
    requires s.inClass && MapNodes(Hook(s), VisitKinds, ClassNode(cl)) == Ok(ClassNode(out))
    ensures |out.methods| == |cl.methods| && |out.constants| == |cl.constants|
    ensures forall j :: 0 <= j < |cl.methods| ==> out.methods[j].name == cl.methods[j].name
    ensures forall j :: 0 <= j < |cl.constants| ==> out.constants[j].name == cl.constants[j].name
  {
    var n := ClassNode(cl);
    ChildrenSmaller(n);
    var cs := MapNodesList(Hook(s), VisitKinds, Children(n), n).value;
    var m := WithChildren(n, cs).value;
    HookIs(s, m);
    assert m.cls.methods == out.methods && m.cls.constants == out.constants;
    RebuildClassShape(cl, cs);
    forall j | 0 <= j < |cl.methods|
      ensures out.methods[j].name == cl.methods[j].name
    {
      MethodKept(s, cl, cs, j);
    }
    forall j | 0 <= j < |cl.constants|
      ensures out.constants[j].name == cl.constants[j].name
    {
      ClassConstantKept(s, cl, cs, j);
    }
  }

  lemma MethodKept(s: PrefixState, cl: Class, cs: seq<Node>, j: nat)
    requires s.inClass && j < |cl.methods|
    requires (ChildrenSmaller(ClassNode(cl)); MapNodesList(Hook(s), VisitKinds, Children(ClassNode(cl)), ClassNode(cl)) == Ok(cs))
    requires WithChildren(ClassNode(cl), cs).Some?
    ensures var m := WithChildren(ClassNode(cl), cs).value;
      m.ClassNode? && j < |m.cls.methods| && m.cls.methods[j].name == cl.methods[j].name
  {
    var n := ClassNode(cl);
    var m := WithChildren(n, cs).value;
    var k := OptLen(cl.metaclass) + |cl.parents| + j;
    RebuiltChildren(n, cs);
    RebuildClassShape(cl, cs);
    ClassMethodAt(cl, j);
    ClassMethodAt(m.cls, j);
    assert cs[k] == FuncNode(m.cls.methods[j]);
    ChildrenSmaller(n);
    assert MapNodesList(Hook(s), VisitKinds, Children(n), n).Ok?;
    assert k < |Children(n)|;
    MapNodesListAt(Hook(s), VisitKinds, Children(n), n, k);
    var c := Children(n)[k];
    assert c == FuncNode(cl.methods[j]);
    RenamedByMap(s, c);
  }

  lemma ClassConstantKept(s: PrefixState, cl: Class, cs: seq<Node>, j: nat)
    requires s.inClass && j < |cl.constants|
    requires (ChildrenSmaller(ClassNode(cl)); MapNodesList(Hook(s), VisitKinds, Children(ClassNode(cl)), ClassNode(cl)) == Ok(cs))
    requires WithChildren(ClassNode(cl), cs).Some?
    ensures var m := WithChildren(ClassNode(cl), cs).value;
      m.ClassNode? && j < |m.cls.constants| && m.cls.constants[j].name == cl.constants[j].name
  {
    var n := ClassNode(cl);
    var m := WithChildren(n, cs).value;
    var k := OptLen(cl.metaclass) + |cl.parents| + |cl.methods| + j;
    RebuiltChildren(n, cs);
    RebuildClassShape(cl, cs);
    ClassConstantAt(cl, j);
    ClassConstantAt(m.cls, j);
    assert cs[k] == ConstNode(m.cls.constants[j]);
    ChildrenSmaller(n);
    assert MapNodesList(Hook(s), VisitKinds, Children(n), n).Ok?;
    assert k < |Children(n)|;
    MapNodesListAt(Hook(s), VisitKinds, Children(n), n, k);
    var c := Children(n)[k];
    assert c == ConstNode(cl.constants[j]);
    RenamedByMap(s, c);
  }

  /**
   * A module-level type parameter gets the module as its scope when it has
   * none, and a prefixed scope otherwise; its name is kept.
   */
  lemma AddNamePrefixTypeParams(u: TypeDeclUnit, i: nat)
    requires AddNamePrefix(u).Ok? && i < |u.typeParams| && u.typeParams[i].TypeParameter?
    ensures var r := AddNamePrefix(u).value; var tp := u.typeParams[i];
      r.UnitNode? && i < |r.u.typeParams| && r.u.typeParams[i].TypeParameter?
      && r.u.typeParams[i].name == tp.name
      && r.u.typeParams[i].scope == Some(if tp.scope.Some? then u.name + "." + tp.scope.value else u.name)
  {
    TypeParamResult(u, i);
    var s := TopState(u);
    var h := Hook(s);
    var n := TypeNode(u.typeParams[i]);
    MapNodesRoot(h, VisitKinds, n);
    var ds :| WithChildren(n, ds).Some?
      && MapNodes(h, VisitKinds, n) == (if KindOf(n) in VisitKinds then h(WithChildren(n, ds).value) else Ok(WithChildren(n, ds).value));
    TypeParameterRebuilt(u.typeParams[i], ds);
    HookIs(s, WithChildren(n, ds).value);
    assert DropLast(u.name + ".") == u.name;
  }

  /** A module-level constant whose type is a plain name refers to the prefixed class if it names a local class. */
  lemma AddNamePrefixConstantType(u: TypeDeclUnit, i: nat)
    requires AddNamePrefix(u).Ok? && i < |u.constants| && u.constants[i].typ.NamedType?
    ensures var r := AddNamePrefix(u).value; var x := u.constants[i].typ.name;
      r.UnitNode? && i < |r.u.constants|
      && r.u.constants[i].typ == NamedType(if x in ClassNames(u.classes) then u.name + "." + x else x)
  {
    ConstantResult(u, i);
    var s := TopState(u);
    var h := Hook(s);
    var n := ConstNode(u.constants[i]);
    var t := TypeNode(u.constants[i].typ);
    ChildrenSmaller(n);
    assert Children(n) == [t];
    MapLeaf(h, VisitKinds, t);
    HookIs(s, t);
    MapSingle(h, VisitKinds, t, n);
    var t' := MapNodes(h, VisitKinds, t).value;
    assert WithChildren(n, [t']) == Some(ConstNode(u.constants[i].(typ := t'.t)));
    HookIs(s, ConstNode(u.constants[i].(typ := t'.t)));
  }

  lemma MapSingle(h: Node -> Result<Node, PassError>, ks: set<Kind>, c: Node, parent: Node)
    requires NodeSize(c) < NodeSize(parent) && MapNodes(h, ks, c).Ok?
    ensures MapNodesList(h, ks, [c], parent) == Ok([MapNodes(h, ks, c).value])
  {
    var cs := [c];
    assert cs[0] == c;
    assert cs[1..] == [];
    assert MapNodesList(h, ks, cs[1..], parent) == Ok([]);
    assert [MapNodes(h, ks, c).value] + [] == [MapNodes(h, ks, c).value];
  }

  // ---------------------------------------------------------------------
  // When the pass raises

  /** Once every child has been rewritten, the unit can be rebuilt: the hook keeps categories. */
  lemma LevelsRebuild(u: TypeDeclUnit)
    requires Levels(u).Ok?
    ensures AddNamePrefix(u).Ok?
  {
    var v := AddNamePrefixVisitor();
    var n := UnitNode(u);
    var top := TopState(u);
    var inner := top.(inClass := true);
    var cs := Children(n);
    var r := Levels(u).value;
    AddNamePrefixLevels(u);
    HookShape(top);
    HookShape(inner);
    LevelMapLength(v, top, inner, ScopeKinds, cs);
    forall k | 0 <= k < |cs|
      ensures SameCategory(r[k], cs[k])
    {
      LevelMapAt(v, top, inner, ScopeKinds, cs, k);
      MapNodesKeeps(Hook(StateFor(u, cs[k])), VisitKinds, cs[k]);
    }
    RebuildFits(n, r);
  }

  lemma FailsOnResolved(u: TypeDeclUnit, m: Node)
    requires m in Preorder(UnitNode(u)) && ResolvedPointer(m)
    ensures AddNamePrefix(u).Err?
  {
    LevelsFail(u, m);
    AddNamePrefixLevels(u);
  }

  lemma LevelsFail(u: TypeDeclUnit, m: Node)
    requires m in Preorder(UnitNode(u)) && ResolvedPointer(m)
    ensures Levels(u).Err?
  {
    var n := UnitNode(u);
    var cs := Children(n);
    ChildrenSmaller(n);
    assert m != n;
    PreorderListMembers(cs, n, m);
    var c :| c in cs && m in Preorder(c);
    var k :| 0 <= k < |cs| && cs[k] == c;
    ChildFails(u, c, m);
    LevelMapOk(AddNamePrefixVisitor(), TopState(u), TopState(u).(inClass := true), ScopeKinds, cs);
  }

  lemma ChildFails(u: TypeDeclUnit, c: Node, m: Node)
    requires m in Preorder(c) && ResolvedPointer(m)
    ensures MapNodes(Hook(StateFor(u, c)), VisitKinds, c).Err?
  {
    HookRaises(StateFor(u, c));
    MapNodesFails(Hook(StateFor(u, c)), VisitKinds, ResolvedPointer, c);
  }

  lemma OkWithoutResolved(u: TypeDeclUnit)
    requires forall m :: m in Preorder(UnitNode(u)) ==> !ResolvedPointer(m)
    ensures AddNamePrefix(u).Ok?
  {
    var v := AddNamePrefixVisitor();
    var n := UnitNode(u);
    var top := TopState(u);
    var inner := top.(inClass := true);
    var cs := Children(n);
    HookShape(top);
    HookShape(inner);
    ChildPreorders(n);
    forall k | 0 <= k < |cs|
      ensures MapNodes(Hook(StateFor(u, cs[k])), VisitKinds, cs[k]).Ok?
    {
      MapNodesOkUnless(Hook(StateFor(u, cs[k])), VisitKinds, ResolvedPointer, cs[k]);
    }
    LevelMapOk(v, top, inner, ScopeKinds, cs);
    LevelsRebuild(u);
  }

  lemma ErrorIsPointer(u: TypeDeclUnit)
    requires AddNamePrefix(u).Err?
    ensures AddNamePrefix(u).error.PointerAlreadySet?
  {
    var v := AddNamePrefixVisitor();
    var cs := Children(UnitNode(u));
    var top := TopState(u);
    var inner := top.(inClass := true);
    AddNamePrefixLevels(u);
    if Levels(u).Ok? {
      LevelsRebuild(u);
    }
    LevelMapErr(v, top, inner, ScopeKinds, cs);
    var k :| 0 <= k < |cs| && MapNodes(Hook(StateFor(u, cs[k])), VisitKinds, cs[k]) == Err(Levels(u).error);
    HookShape(StateFor(u, cs[k]));
    MapNodesKeeps(Hook(StateFor(u, cs[k])), VisitKinds, cs[k]);
  }

  /** The pass fails exactly when the unit already holds a resolved class pointer, and then with that error. */
  lemma AddNamePrefixFails(u: TypeDeclUnit)
    ensures AddNamePrefix(u).Err? <==> exists m :: m in Preorder(UnitNode(u)) && ResolvedPointer(m)
    ensures AddNamePrefix(u).Err? ==> AddNamePrefix(u).error.PointerAlreadySet?
  {
    if exists m :: m in Preorder(UnitNode(u)) && ResolvedPointer(m) {
      var m :| m in Preorder(UnitNode(u)) && ResolvedPointer(m);
      FailsOnResolved(u, m);
      ErrorIsPointer(u);
    } else {
      OkWithoutResolved(u);
    }
  }
}
