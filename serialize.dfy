/**
 * pytype/pytd/serialize_ast.py: renaming a module inside its own tree,
 * storing a module's tree with its class pointers cleared and its
 * ClassType nodes indexed, and restoring the pointers when it is loaded.
 */
module Serialize {
  import opened Wrappers
  import opened Names
  import opened Pytd
  import opened Visit
  import opened Traversal
  import opened Passes
  import opened Lookup

  // ---------------------------------------------------------------------
  // RenameModuleVisitor

  /** The visitor's two module names. */
  datatype Renamer = Renamer(oldName: string, newName: string)

  /** The constructor: an empty old module name raises ValueError. */
  function NewRenamer(oldName: string, newName: string): (r: Result<Renamer, PassError>)
    ensures r.Err? <==> oldName == ""
    ensures r.Err? ==> r.error == EmptyModuleName
    ensures r.Ok? ==> r.value == Renamer(oldName, newName)
  {
    if oldName == "" then Err(EmptyModuleName) else Ok(Renamer(oldName, newName))
  }

  /** The reverse renaming. */
  function Reverse(rn: Renamer): Renamer {
    Renamer(rn.newName, rn.oldName)
  }

  /**
   * `_MaybeNewName` as written: a name that starts with the old module
   * name has the first occurrence of it replaced, which is that prefix.
   */
  function MaybeNewNameAsWritten(rn: Renamer, name: string): (r: string)
    ensures StartsWith(name, rn.oldName) ==> r == rn.newName + name[|rn.oldName|..]
    ensures !StartsWith(name, rn.oldName) ==> r == name
  {
    if StartsWith(name, rn.oldName) then
      assert OccursAt(name, rn.oldName, 0);
      ReplaceFirst(name, rn.oldName, rn.newName)
    else name
  }

  /** A name local to `moduleName`: the module itself or a dotted name beneath it. */
  predicate Inside(name: string, moduleName: string) {
    name == moduleName || StartsWith(name, moduleName + ".")
  }

  /** `_MaybeNewName` as its documentation promises: only names local to the old module are renamed. */
  function MaybeNewName(rn: Renamer, name: string): (r: string)
    ensures Inside(name, rn.oldName) ==> r == rn.newName + name[|rn.oldName|..] && Inside(r, rn.newName)
    ensures !Inside(name, rn.oldName) ==> r == name
  {
    if Inside(name, rn.oldName) then
      InsideMoved(name, rn.oldName, rn.newName);
      rn.newName + name[|rn.oldName|..]
    else name
  }

  /** Moving a local name to another module keeps it local. */
  lemma InsideMoved(name: string, from: string, to: string)
    requires Inside(name, from)
    ensures Inside(to + name[|from|..], to)
  {
    if name != from {
      var r := to + name[|from|..];
      assert name[..|from| + 1] == from + ".";
      assert name[|from|..][..1] == ".";
      assert r[..|to| + 1] == to + ".";
    }
  }

  /** A name the reverse renaming takes back: local to the old module, or not local to the new one. */
  predicate Reversible(rn: Renamer, name: string) {
    Inside(name, rn.oldName) || !Inside(name, rn.newName)
  }

  lemma MaybeNewNameInverse(rn: Renamer, name: string)
    requires Reversible(rn, name)
    ensures MaybeNewName(Reverse(rn), MaybeNewName(rn, name)) == name
  {
    if Inside(name, rn.oldName) {
      var r := MaybeNewName(rn, name);
      assert r[|rn.newName|..] == name[|rn.oldName|..];
      assert rn.oldName + name[|rn.oldName|..] == name;
    }
  }

  /**
   * The prefix test of the code as written has no dot boundary: a module
   * that merely shares the old name's prefix is renamed too.
   */
  lemma DotBoundaryAsWritten()
    ensures var rn := Renamer("foo.bar", "baz");
      !Inside("foo.bar_util.X", rn.oldName)
      && MaybeNewNameAsWritten(rn, "foo.bar_util.X") == "baz_util.X"
      && MaybeNewName(rn, "foo.bar_util.X") == "foo.bar_util.X"
  {
    var rn := Renamer("foo.bar", "baz");
    assert "foo.bar_util.X"[..7] == "foo.bar";
    assert "foo.bar_util.X"[..8][7] == '_' && "foo.bar."[7] == '.';
    assert "foo.bar_util.X"[7..] == "_util.X";
  }

  /**
   * The Visit hooks of the renamer at one node, with the name rule `f`.
   * `scopeRequired` is the code as written: a type parameter without a
   * scope hands `None` to `_MaybeNewName`, which raises.
   */
  function RenameAt(newName: string, f: string -> string, scopeRequired: bool, n: Node): Result<Node, PassError> {
    match n
    case TypeNode(NamedType(name)) => Ok(TypeNode(NamedType(f(name))))
    case TypeNode(ClassType(name, cls)) => Ok(TypeNode(ClassType(f(name), cls)))
    case TypeNode(TypeParameter(name, cs, b, scope)) =>
      if scope.Some? then Ok(TypeNode(TypeParameter(name, cs, b, Some(f(scope.value)))))
      else if scopeRequired then Err(MissingScope(name))
      else Ok(n)
    case TypeNode(_) => Ok(n)
    case ParamNode(_) => Ok(n)
    case SigNode(_) => Ok(n)
    case ConstNode(c) => Ok(ConstNode(c.(name := f(c.name))))
    case AliasNode(a) => Ok(AliasNode(a.(name := f(a.name))))
    case ClassNode(c) => Ok(ClassNode(c.(name := f(c.name))))
    case FuncNode(fn) => Ok(FuncNode(fn.(name := f(fn.name))))
    case UnitNode(u) => Ok(UnitNode(u.(name := newName)))
  }

  /** The kinds with a Visit hook. */
  const RenameKinds: set<Kind> :=
    {KClassType, KUnit, KTypeParameter, KConstant, KAlias, KClass, KFunction, KExternalFunction, KNamedType}

  function RenameHookWith(newName: string, f: string -> string): Node -> Result<Node, PassError> {
    (n: Node) => RenameAt(newName, f, false, n)
  }

  /** The hooks as written. */
  function RenameHookAsWritten(rn: Renamer): Node -> Result<Node, PassError> {
    (n: Node) => RenameAt(rn.newName, (s: string) => MaybeNewNameAsWritten(rn, s), true, n)
  }

  /** The hooks with the dot boundary, leaving unscoped type parameters alone. */
  function RenameHook(rn: Renamer): Node -> Result<Node, PassError> {
    RenameHookWith(rn.newName, (s: string) => MaybeNewName(rn, s))
  }

  /** `n.Visit(RenameModuleVisitor(old, new))` as written. */
  function RenameModuleAsWritten(rn: Renamer, n: Node): Result<Node, PassError> {
    MapNodes(RenameHookAsWritten(rn), RenameKinds, n)
  }

  /**
   * A module whose tree holds a type parameter without a scope, as
   * AdjustTypeParameters adds to a unit's own type parameters, cannot be
   * renamed by the code as written.
   */
  lemma MissingScopeAsWritten()
    ensures var u := TypeDeclUnit("pkg.__init__", [], [TypeParameter("T", [], None, None)], [], [], []);
      RenameModuleAsWritten(Renamer("pkg.__init__", "pkg"), UnitNode(u)) == Err(MissingScope("T"))
  {
    var rn := Renamer("pkg.__init__", "pkg");
    var h := RenameHookAsWritten(rn);
    var t := TypeNode(TypeParameter("T", [], None, None));
    var u := TypeDeclUnit("pkg.__init__", [], [TypeParameter("T", [], None, None)], [], [], []);
    assert Children(t) == [];
    assert WithChildren(t, []) == Some(t);
    assert MapNodesList(h, RenameKinds, [], t) == Ok([]);
    assert MapNodes(h, RenameKinds, t) == h(t);
    assert h(t) == Err(MissingScope("T"));
    assert Children(UnitNode(u)) == [t];
    assert MapNodesList(h, RenameKinds, [t], UnitNode(u)) == Err(MissingScope("T"));
  }

  /** A renaming hook rewrites only its node's own name or scope. */
  lemma RenameHookOwnFields(newName: string, f: string -> string)
    ensures OwnFieldsHook(RenameHookWith(newName, f))
  {
    var h := RenameHookWith(newName, f);
    forall m ensures h(m).Ok? && KindOf(h(m).value) == KindOf(m) {
    }
    assert KeepsKind(h);
    forall m, cs | WithChildren(m, cs).Some?
      ensures WithChildren(h(m).value, cs).Some?
      ensures h(WithChildren(m, cs).value) == Ok(WithChildren(h(m).value, cs).value)
    {
      RenameCommutes(newName, f, m, cs);
    }
  }

  lemma RenameCommutes(newName: string, f: string -> string, m: Node, cs: seq<Node>)
    requires WithChildren(m, cs).Some?
    ensures var h := RenameHookWith(newName, f);
      WithChildren(h(m).value, cs).Some? && h(WithChildren(m, cs).value) == Ok(WithChildren(h(m).value, cs).value)
  {
    match m
    case TypeNode(t) =>
      if t.TypeParameter? {
        TypeParameterRebuilt(t, cs);
      }
    case ParamNode(_) =>
    case SigNode(_) =>
    case ConstNode(_) =>
    case AliasNode(_) =>
    case FuncNode(_) =>
    case ClassNode(c) => RebuildClassRenamed(c, f(c.name), cs);
    case UnitNode(u) => RebuildUnitRenamed(u, newName, cs);
  }

  lemma RebuildClassRenamed(c: Class, name: string, cs: seq<Node>)
    requires |cs| == |Children(ClassNode(c))| && RebuildClass(c, cs).Some?
    ensures |cs| == |Children(ClassNode(c.(name := name)))|
    ensures RebuildClass(c.(name := name), cs) == Some(ClassNode(RebuildClass(c, cs).value.cls.(name := name)))
  {
  }

  lemma RebuildUnitRenamed(u: TypeDeclUnit, name: string, cs: seq<Node>)
    requires |cs| == |Children(UnitNode(u))| && RebuildUnit(u, cs).Some?
    ensures |cs| == |Children(UnitNode(u.(name := name)))|
    ensures RebuildUnit(u.(name := name), cs) == Some(UnitNode(RebuildUnit(u, cs).value.u.(name := name)))
  {
  }

  /** `n.Visit(RenameModuleVisitor(old, new))`, with both corrections: it never fails. */
  function RenameModule(rn: Renamer, n: Node): (r: Node)
    ensures MapNodes(RenameHook(rn), RenameKinds, n) == Ok(r) && KindOf(r) == KindOf(n)
  {
    RenameHookOwnFields(rn.newName, (s: string) => MaybeNewName(rn, s));
    MapNodesOwn(RenameHook(rn), RenameKinds, n);
    var cs := (ChildrenSmaller(n); MapNodesList(RenameHook(rn), RenameKinds, Children(n), n).value);
    var own := if KindOf(n) in RenameKinds then RenameHook(rn)(n).value else n;
    WithChildrenKind(own, cs);
    MapNodes(RenameHook(rn), RenameKinds, n).value
  }

  /** The renaming is what the visitor computes. */
  lemma RenameModuleVisitor(rn: Renamer, n: Node)
    ensures Apply(NodeMapper<()>(RenameHook(rn), RenameKinds), (), n) == Ok(((), RenameModule(rn, n)))
  {
    NodeMapperIsMap(RenameHook(rn), RenameKinds, (), n);
  }

  /** Renaming a unit: the unit takes the new module name. */
  function RenameUnit(rn: Renamer, u: TypeDeclUnit): (r: TypeDeclUnit)
    ensures RenameModule(rn, UnitNode(u)) == UnitNode(r)
    ensures r.name == rn.newName
  {
    var h := RenameHook(rn);
    RenameHookOwnFields(rn.newName, (s: string) => MaybeNewName(rn, s));
    MapNodesOwn(h, RenameKinds, UnitNode(u));
    var cs := (ChildrenSmaller(UnitNode(u)); MapNodesList(h, RenameKinds, Children(UnitNode(u)), UnitNode(u)).value);
    assert h(UnitNode(u)) == Ok(UnitNode(u.(name := rn.newName)));
    WithChildrenKeepsName(UnitNode(u.(name := rn.newName)), cs);
    RenameModule(rn, UnitNode(u)).u
  }

  /** Every name the renaming reads at `m` is reversible, and a unit carries the old module name. */
  predicate NamesReversible(rn: Renamer, m: Node) {
    match m
    case TypeNode(NamedType(name)) => Reversible(rn, name)
    case TypeNode(ClassType(name, _)) => Reversible(rn, name)
    case TypeNode(TypeParameter(_, _, _, scope)) => scope.None? || Reversible(rn, scope.value)
    case TypeNode(_) => true
    case ParamNode(_) => true
    case SigNode(_) => true
    case ConstNode(c) => Reversible(rn, c.name)
    case AliasNode(a) => Reversible(rn, a.name)
    case ClassNode(c) => Reversible(rn, c.name)
    case FuncNode(f) => Reversible(rn, f.name)
    case UnitNode(u) => u.name == rn.oldName
  }

  /** Renaming a module and renaming it back restores the tree, when every name in it is reversible. */
  lemma RenameRoundTrip(rn: Renamer, n: Node)
    requires forall m :: m in Preorder(n) ==> NamesReversible(rn, m)
    ensures RenameModule(Reverse(rn), RenameModule(rn, n)) == n
  {
    var h1 := RenameHook(rn);
    var h2 := RenameHook(Reverse(rn));
    RenameHookOwnFields(rn.newName, (s: string) => MaybeNewName(rn, s));
    RenameHookOwnFields(rn.oldName, (s: string) => MaybeNewName(Reverse(rn), s));
    MapNodesThen(h1, h2, RenameKinds, n);
    forall m | m in Preorder(n) && KindOf(m) in RenameKinds
      ensures Then(h1, h2)(m) == Ok(m)
    {
      RenameBackAt(rn, m);
    }
    MapNodesFixedOn(Then(h1, h2), RenameKinds, n);
  }

  lemma RenameBackAt(rn: Renamer, m: Node)
    requires NamesReversible(rn, m)
    ensures Then(RenameHook(rn), RenameHook(Reverse(rn)))(m) == Ok(m)
  {
    var h1 := RenameHook(rn);
    var h2 := RenameHook(Reverse(rn));
    assert Then(h1, h2)(m) == h2(h1(m).value);
    match m
    case TypeNode(t) =>
      match t {
        case NamedType(name) => MaybeNewNameInverse(rn, name);
        case ClassType(name, _) => MaybeNewNameInverse(rn, name);
        case TypeParameter(_, _, _, scope) =>
          if scope.Some? {
            MaybeNewNameInverse(rn, scope.value);
          }
        case _ =>
      }
    case ParamNode(_) =>
    case SigNode(_) =>
    case ConstNode(c) => MaybeNewNameInverse(rn, c.name);
    case AliasNode(a) => MaybeNewNameInverse(rn, a.name);
    case ClassNode(c) => MaybeNewNameInverse(rn, c.name);
    case FuncNode(f) => MaybeNewNameInverse(rn, f.name);
    case UnitNode(u) =>
  }

  // ---------------------------------------------------------------------
  // ClearClassPointers and FindClassTypesVisitor

  function ClearPointer(t: Type): Type {
    if t.ClassType? then ClassType(t.name, Unresolved) else t
  }

  /** `n.Visit(ClearClassPointers())`: every ClassType keeps its name and loses its pointer. */
  function ClearClassPointers(n: Node): Node {
    MapTypes(ClearPointer, {KClassType}, n)
  }

  /** A node that is not a ClassType with a pointer set. */
  predicate Unlinked(m: Node) {
    !(m.TypeNode? && m.t.ClassType? && m.t.cls.Resolved?)
  }

  /** A node that is not a ClassType without a pointer. */
  predicate Linked(m: Node) {
    m.TypeNode? && m.t.ClassType? ==> m.t.cls.Resolved?
  }

  lemma ClassKind(m: Node)
    requires KindOf(m) == KClassType
    ensures m.TypeNode? && m.t.ClassType?
  {
    match m
    case TypeNode(t) =>
    case _ =>
  }

  /** No pointer is left once they are cleared. */
  lemma ClearClassPointersClears(n: Node)
    ensures Everywhere(Unlinked, ClearClassPointers(n))
  {
    var h := TypeHook(ClearPointer);
    forall m | m in Preorder(n) && KindOf(m) in {KClassType} && h(m).Ok?
      ensures Everywhere(Unlinked, h(m).value)
    {
      ClassKind(m);
      assert ClearPointer(m.t) == ClassType(m.t.name, Unresolved);
      assert h(m) == Ok(TypeNode(ClassType(m.t.name, Unresolved)));
      LeafPreorder(h(m).value);
    }
    MapNodesEverywhere(h, {KClassType}, Unlinked, n);
  }

  /**
   * A leaf rewrite of ClassType nodes that keeps them ClassTypes of the
   * same name disappears once the pointers are cleared.
   */
  lemma ClearAfter(g: Type -> Type, n: Node)
    requires forall t: Type :: t.ClassType? ==> g(t).ClassType? && g(t).name == t.name
    ensures ClearClassPointers(MapTypes(g, {KClassType}, n)) == ClearClassPointers(n)
  {
    var ks := {KClassType};
    var h1 := TypeHook(g);
    var h2 := TypeHook(ClearPointer);
    HookKeepsClassKind(g);
    MapNodesCompose(h1, h2, ks, n);
    ClearAbsorbs(g);
    MapNodesAgree(Then(h1, h2), h2, ks, n);
  }

  lemma HookKeepsClassKind(g: Type -> Type)
    requires forall t: Type :: t.ClassType? ==> g(t).ClassType? && g(t).name == t.name
    ensures forall m :: KindOf(m) in {KClassType} && TypeHook(g)(m).Ok? ==> KindOf(TypeHook(g)(m).value) in {KClassType}
  {
    forall m | KindOf(m) in {KClassType} && TypeHook(g)(m).Ok?
      ensures KindOf(TypeHook(g)(m).value) in {KClassType}
    {
      ClassKind(m);
    }
  }

  lemma ClearAbsorbs(g: Type -> Type)
    requires forall t: Type :: t.ClassType? ==> g(t).ClassType? && g(t).name == t.name
    ensures forall m :: KindOf(m) in {KClassType} ==> Then(TypeHook(g), TypeHook(ClearPointer))(m) == TypeHook(ClearPointer)(m)
  {
    forall m | KindOf(m) in {KClassType}
      ensures Then(TypeHook(g), TypeHook(ClearPointer))(m) == TypeHook(ClearPointer)(m)
    {
      ClassKind(m);
      ClearAbsorbsAt(g, m.t);
    }
  }

  lemma ClearAbsorbsAt(g: Type -> Type, t: Type)
    requires t.ClassType? && g(t).ClassType? && g(t).name == t.name
    ensures Then(TypeHook(g), TypeHook(ClearPointer))(TypeNode(t)) == TypeHook(ClearPointer)(TypeNode(t))
  {
    var h1 := TypeHook(g);
    var h2 := TypeHook(ClearPointer);
    assert h1(TypeNode(t)) == Ok(TypeNode(g(t)));
    assert ClearPointer(g(t)) == ClearPointer(t);
    assert h2(TypeNode(g(t))) == h2(TypeNode(t));
  }

  /** The ClassType a node is, if it is one. */
  function ClassTypeOf(n: Node): seq<Type> {
    if n.TypeNode? && n.t.ClassType? then [n.t] else []
  }

  /** The ClassType nodes of the tree, in visiting order. */
  function ClassTypesIn(n: Node): seq<Type> {
    Collected(ClassTypeOf, Preorder(n))
  }

  /** `FindClassTypesVisitor`: EnterClassType appends the node to `class_type_nodes`. */
  function FindClassTypes(): Visitor<seq<Type>> {
    Visitor({KClassType}, {}, {}, false,
      (s: seq<Type>, n: Node) => Ok(s + ClassTypeOf(n)),
      (s: seq<Type>, n: Node) => Ok((s, n)),
      (s: seq<Type>, n: Node) => s)
  }

  /** Run from an empty list, the indexer lists the tree's ClassType nodes in visiting order and changes nothing. */
  lemma FindClassTypesMeaning(n: Node)
    ensures Apply(FindClassTypes(), [], n) == Ok((ClassTypesIn(n), n))
  {
    var v := FindClassTypes();
    EnterOnlyIsFold(v, [], n);
    forall m | KindOf(m) !in v.enterKinds
      ensures ClassTypeOf(m) == []
    {
    }
    FoldEnterCollects(v, ClassTypeOf, [], Preorder(n));
    assert [] + ClassTypesIn(n) == ClassTypesIn(n);
  }

  /** The list holds exactly the ClassTypes of the tree. */
  lemma ClassTypesInMembers(n: Node, t: Type)
    ensures t in ClassTypesIn(n) <==> t.ClassType? && TypeNode(t) in Preorder(n)
  {
    CollectedMembers(ClassTypeOf, Preorder(n), t);
    if t.ClassType? && TypeNode(t) in Preorder(n) {
      var i :| 0 <= i < |Preorder(n)| && Preorder(n)[i] == TypeNode(t);
      assert t in ClassTypeOf(Preorder(n)[i]);
    }
  }

  predicate AllClassTypes(ts: seq<Type>) {
    forall i :: 0 <= i < |ts| ==> ts[i].ClassType?
  }

  // ---------------------------------------------------------------------
  // SerializableAst and StoreAst

  /** The data of a SerializableAst. */
  datatype Record = Record(ast: TypeDeclUnit, dependencies: set<string>, classTypeNodes: Option<seq<Type>>)

  /** The data saved for a module; loading changes its fields in place. */
  class SerializableAst {
    var ast: TypeDeclUnit
    var dependencies: set<string>
    var classTypeNodes: Option<seq<Type>>

    constructor (ast: TypeDeclUnit, dependencies: set<string>, classTypeNodes: Option<seq<Type>>)
      ensures Value() == Record(ast, dependencies, classTypeNodes)
    {
      this.ast := ast;
      this.dependencies := dependencies;
      this.classTypeNodes := classTypeNodes;
    }

    function Value(): Record
      reads this
    {
      Record(ast, dependencies, classTypeNodes)
    }
  }

  const InitSuffix: string := ".__init__"

  /** The name a module is stored under: a package's `X.__init__` is stored as `X`. */
  function StoredName(name: string): (r: string)
    ensures EndsWith(name, InitSuffix) ==> r + InitSuffix == name
    ensures !EndsWith(name, InitSuffix) ==> r == name
  {
    if EndsWith(name, InitSuffix) then
      var r := name[..|name| - |InitSuffix|];
      assert r + name[|name| - |InitSuffix|..] == name;
      r
    else name
  }

  /** The unit with its pointers cleared. */
  function ClearUnit(u: TypeDeclUnit): (r: TypeDeclUnit)
    ensures UnitNode(r) == ClearClassPointers(UnitNode(u))
    ensures r.name == u.name
  {
    var c := ClearClassPointers(UnitNode(u));
    var h := TypeHook(ClearPointer);
    ChildrenSmaller(UnitNode(u));
    var cs := MapNodesList(h, {KClassType}, Children(UnitNode(u)), UnitNode(u));
    assert cs.Ok? && WithChildren(UnitNode(u), cs.value) == Some(c);
    WithChildrenKeepsName(UnitNode(u), cs.value);
    c.u
  }

  /** The unit StoreAst works on: a package's `__init__` module renamed to the package. */
  function StoreRename(ast: TypeDeclUnit): (r: TypeDeclUnit)
    ensures r.name == StoredName(ast.name)
  {
    if EndsWith(ast.name, InitSuffix) then RenameUnit(Renamer(ast.name, StoredName(ast.name)), ast) else ast
  }

  /** What StoreAst saves for `ast`. */
  function StoreRecord(ast: TypeDeclUnit): (r: Record)
    ensures r.classTypeNodes.Some? && AllClassTypes(r.classTypeNodes.value)
  {
    var a := StoreRename(ast);
    var c := ClearUnit(a);
    var ts := ClassTypesIn(UnitNode(c));
    forall i | 0 <= i < |ts|
      ensures ts[i].ClassType?
    {
      ClassTypesInMembers(UnitNode(c), ts[i]);
    }
    Record(c, Dependencies(UnitNode(a)), Some(ts))
  }

  /**
   * `StoreAst` without the pickling: rename a package's `__init__`
   * module, collect the dependencies, clear the pointers, index the
   * ClassType nodes.
   */
  method StoreAst(ast: TypeDeclUnit) returns (stored: SerializableAst)
    ensures fresh(stored)
    ensures stored.Value() == StoreRecord(ast)
  {
    var a := ast;
    if EndsWith(ast.name, InitSuffix) {
      var rn := Renamer(ast.name, StoredName(ast.name));
      RenameModuleVisitor(rn, UnitNode(ast));
      var renamed := Apply(NodeMapper<()>(RenameHook(rn), RenameKinds), (), UnitNode(ast));
      a := renamed.value.1.u;
    }
    CollectDependenciesMeaning(UnitNode(a));
    var deps := Apply(CollectDependencies(), {}, UnitNode(a));
    var cleared := ClearUnit(a);
    FindClassTypesMeaning(UnitNode(cleared));
    var indexer := Apply(FindClassTypes(), [], UnitNode(cleared));
    stored := new SerializableAst(cleared, deps.value.0, Some(indexer.value.0));
  }

  /** The stored module takes the package name, and an ordinary module keeps its own. */
  lemma StoreRecordName(ast: TypeDeclUnit)
    ensures EndsWith(ast.name, InitSuffix) ==> StoreRecord(ast).ast.name + InitSuffix == ast.name
    ensures !EndsWith(ast.name, InitSuffix) ==> StoreRecord(ast).ast.name == ast.name
  {
  }

  /** No stored ClassType keeps a pointer, and the index lists exactly the stored tree's ClassTypes. */
  lemma StoreRecordIndex(ast: TypeDeclUnit, t: Type)
    ensures Everywhere(Unlinked, UnitNode(StoreRecord(ast).ast))
    ensures t in StoreRecord(ast).classTypeNodes.value <==> t.ClassType? && TypeNode(t) in Preorder(UnitNode(StoreRecord(ast).ast))
    ensures t in StoreRecord(ast).classTypeNodes.value ==> t.cls == Unresolved
  {
    var c := StoreRecord(ast).ast;
    ClearClassPointersClears(UnitNode(StoreRename(ast)));
    ClassTypesInMembers(UnitNode(c), t);
  }

  // ---------------------------------------------------------------------
  // EnsureAstName

  /** The record after `EnsureAstName`, and the exception it raises. */
  function EnsureName(rec: Record, moduleName: string): (Record, Option<PassError>) {
    if moduleName == rec.ast.name then (rec, None)
    else match NewRenamer(rec.ast.name, moduleName)
      case Err(e) => (rec.(classTypeNodes := None), Some(e))
      case Ok(rn) => (rec.(ast := RenameUnit(rn, rec.ast), classTypeNodes := None), None)
  }

  method EnsureAstName(s: SerializableAst, moduleName: string) returns (err: Option<PassError>)
    modifies s
    ensures (s.Value(), err) == EnsureName(old(s.Value()), moduleName)
  {
    var raw := s.ast;
    err := None;
    if moduleName != raw.name {
      s.classTypeNodes := None;
      var rn := NewRenamer(raw.name, moduleName);
      match rn
      case Err(e) => err := Some(e);
      case Ok(r) => s.ast := RenameUnit(r, raw);
    }
  }

  /**
   * Loading under the stored name changes nothing; loading under another
   * name drops the index and renames the module, which fails only for a
   * module stored without a name.
   */
  lemma EnsureNameMeaning(rec: Record, moduleName: string)
    ensures moduleName == rec.ast.name ==> EnsureName(rec, moduleName) == (rec, None)
    ensures moduleName != rec.ast.name ==>
      var (r, err) := EnsureName(rec, moduleName);
      r.classTypeNodes.None? && r.dependencies == rec.dependencies
      && (err.Some? <==> rec.ast.name == "")
      && (err.None? ==> r.ast.name == moduleName)
      && (err.Some? ==> err.value.EmptyModuleName? && r.ast == rec.ast)
  {
  }

  /** Loading under another name and then under the stored name again gives the stored module back. */
  lemma EnsureNameRoundTrip(rec: Record, moduleName: string)
    requires rec.ast.name != "" && moduleName != "" && moduleName != rec.ast.name
    requires forall m :: m in Preorder(UnitNode(rec.ast)) ==> NamesReversible(Renamer(rec.ast.name, moduleName), m)
    ensures EnsureName(EnsureName(rec, moduleName).0, rec.ast.name).0.ast == rec.ast
  {
    var rn := Renamer(rec.ast.name, moduleName);
    var u1 := RenameUnit(rn, rec.ast);
    assert EnsureName(rec, moduleName).0.ast == u1;
    RenameRoundTrip(rn, UnitNode(rec.ast));
    assert RenameModule(Reverse(rn), UnitNode(u1)) == UnitNode(rec.ast);
    assert EnsureName(EnsureName(rec, moduleName).0, rec.ast.name).0.ast == RenameUnit(Reverse(rn), u1);
  }

  // ---------------------------------------------------------------------
  // ProcessAst

  /** The lookup ProcessAst builds: the loaded module is registered under its own name. */
  function LoadLookup(raw: TypeDeclUnit, moduleMap: map<string, TypeDeclUnit>): External {
    External(moduleMap[raw.name := raw], true, None)
  }

  /** `node is class_lookup.VisitClassType(node)`: the lookup lent the node a pointer rather than replacing it. */
  predicate KeepsNode(r: Node) {
    r.TypeNode? && r.t.ClassType?
  }

  /**
   * The loop over the recorded nodes: it stops at the first exception, or
   * with `false` at the first node the lookup replaces.
   */
  function Scan(x: External, ts: seq<Type>): (r: Result<bool, PassError>)
    requires AllClassTypes(ts)
    ensures r == Ok(true) <==> forall i :: 0 <= i < |ts| ==>
      ExternalClassType(x, ts[i], false).Ok? && KeepsNode(ExternalClassType(x, ts[i], false).value)
    ensures r.Err? ==> exists i :: 0 <= i < |ts| && ExternalClassType(x, ts[i], false) == Err(r.error)
  {
    if ts == [] then Ok(true)
    else
      var r :- ExternalClassType(x, ts[0], false);
      if KeepsNode(r) then
        var rest := Scan(x, ts[1..]);
        assert forall i :: 1 <= i < |ts| ==> ts[i] == ts[1..][i - 1];
        rest
      else Ok(false)
  }

  /** A KeyError of the lookup becomes UnrestorableDependencyError. */
  function Unrestorable<X>(r: Result<X, PassError>): (q: Result<X, PassError>)
    ensures r.Err? && r.error.KeyError? ==> q == Err(UnrestorableDependencyError(r.error.key))
    ensures !(r.Err? && r.error.KeyError?) ==> q == r
  {
    match r
    case Err(KeyError(k)) => Err(UnrestorableDependencyError(k))
    case _ => r
  }

  /** The pointer the lookup lends a ClassType node; it keeps its own when the lookup lends none. */
  function LentPointer(x: External, t: Type): ClassRef
    requires t.ClassType?
  {
    match ExternalClassType(x, t, false)
    case Ok(TypeNode(ClassType(_, c))) => c
    case _ => t.cls
  }

  function RelinkPointer(x: External): Type -> Type {
    (t: Type) => if t.ClassType? then ClassType(t.name, LentPointer(x, t)) else t
  }

  /**
   * The unit after the targeted pass: each ClassType node has taken the
   * pointer the lookup lent it (in place, in the source).
   */
  function Relinked(x: External, u: TypeDeclUnit): (r: TypeDeclUnit)
    ensures UnitNode(r) == MapTypes(RelinkPointer(x), {KClassType}, UnitNode(u))
  {
    MapTypes(RelinkPointer(x), {KClassType}, UnitNode(u)).u
  }

  /** `raw_ast.Visit(class_lookup)` over the whole unit, with a KeyError mapped. */
  function FullLookup(x: External, u: TypeDeclUnit): Result<TypeDeclUnit, PassError> {
    match Apply(LookupExternalTypes(x), false, UnitNode(u))
    case Err(e) => Unrestorable(Err(e))
    case Ok((_, n)) => if n.UnitNode? then Ok(n.u) else Err(Malformed(KUnit))
  }

  /** What `ProcessAst` returns, and the index it leaves in the record. */
  function Process(rec: Record, moduleMap: map<string, TypeDeclUnit>): (Result<TypeDeclUnit, PassError>, Option<seq<Type>>)
    requires rec.classTypeNodes.Some? ==> AllClassTypes(rec.classTypeNodes.value)
  {
    var x := LoadLookup(rec.ast, moduleMap);
    match rec.classTypeNodes
    case None => (FullLookup(x, rec.ast), None)
    case Some(ts) =>
      if ts == [] then (Ok(rec.ast), Some(ts))
      else match Scan(x, ts)
        case Err(e) => (Unrestorable(Err(e)), Some(ts))
        case Ok(true) => (Ok(Relinked(x, rec.ast)), Some(ts))
        case Ok(false) => (FullLookup(x, rec.ast), None)
  }

  method ProcessAst(s: SerializableAst, moduleMap: map<string, TypeDeclUnit>)
    returns (r: Result<TypeDeclUnit, PassError>, newMap: map<string, TypeDeclUnit>)
    requires s.classTypeNodes.Some? ==> AllClassTypes(s.classTypeNodes.value)
    modifies s
    ensures newMap == moduleMap[old(s.ast).name := old(s.ast)]
    ensures s.ast == old(s.ast) && s.dependencies == old(s.dependencies)
    ensures (r, s.classTypeNodes) == Process(old(s.Value()), moduleMap)
  {
    var raw := s.ast;
    newMap := moduleMap[raw.name := raw];
    var x := External(newMap, true, None);
    r := Ok(raw);
    if s.classTypeNodes.Some? && s.classTypeNodes.value != [] {
      var ts := s.classTypeNodes.value;
      var replaced := false;
      var i := 0;
      while i < |ts| && !replaced
        invariant 0 <= i <= |ts|
        invariant unchanged(s)
        invariant !replaced ==> Scan(x, ts) == Scan(x, ts[i..])
        invariant replaced ==> Scan(x, ts) == Ok(false)
        decreases |ts| - i, if replaced then 0 else 1
      {
        assert ts[i..][1..] == ts[i + 1..];
        var found := ExternalClassType(x, ts[i], false);
        if found.Err? {
          r := Unrestorable(Err(found.error));
          return;
        }
        if !KeepsNode(found.value) {
          replaced := true;
        } else {
          i := i + 1;
        }
      }
      if replaced {
        s.classTypeNodes := None;
      } else {
        assert ts[i..] == [];
        r := Ok(Relinked(x, raw));
      }
    }
    if s.classTypeNodes.None? {
      r := FullLookup(x, raw);
    }
  }

  /**
   * Loading never lets a KeyError escape; the targeted pass stands only
   * when every recorded node keeps its identity, and otherwise the index
   * is dropped and the whole unit traversed.
   */
  lemma ProcessMeaning(rec: Record, moduleMap: map<string, TypeDeclUnit>)
    requires rec.classTypeNodes.Some? ==> AllClassTypes(rec.classTypeNodes.value)
    ensures var (r, nodes) := Process(rec, moduleMap);
      (r.Err? ==> !r.error.KeyError?)
      && (nodes.None? ==> r == FullLookup(LoadLookup(rec.ast, moduleMap), rec.ast))
      && (rec.classTypeNodes.Some? && rec.classTypeNodes.value != [] ==>
            (nodes.None? <==> Scan(LoadLookup(rec.ast, moduleMap), rec.classTypeNodes.value) == Ok(false)))
      && (rec.classTypeNodes.None? ==> nodes.None?)
  {
  }

  /** Loading under a new name traverses the whole renamed unit. */
  lemma LoadRenamedTraversesAll(rec: Record, moduleName: string, moduleMap: map<string, TypeDeclUnit>)
    requires rec.ast.name != "" && moduleName != rec.ast.name
    ensures var r := EnsureName(rec, moduleName).0;
      r.ast.name == moduleName
      && Process(r, moduleMap) == (FullLookup(LoadLookup(r.ast, moduleMap), r.ast), None)
  {
  }

  // ---------------------------------------------------------------------
  // Storing and loading under the same name

  /** The lookup resolves `name` to a class of a loaded module. */
  predicate ResolvesToClass(x: External, name: string) {
    name !in x.moduleMap && '.' in name && RPartition(name).0 in x.moduleMap
    && UnitLookup(x.moduleMap[RPartition(name).0], name).Ok?
    && UnitLookup(x.moduleMap[RPartition(name).0], name).value.ClassItem?
  }

  predicate ResolvableAt(x: External, m: Node) {
    m.TypeNode? && m.t.ClassType? ==> ResolvesToClass(x, m.t.name)
  }

  /** A node the lookup resolves to a class keeps its identity and is lent a pointer. */
  lemma ResolvedNode(x: External, t: Type)
    requires x.fullNames && x.selfName.None? && t.ClassType? && ResolvesToClass(x, t.name)
    ensures ExternalClassType(x, t, false).Ok? && KeepsNode(ExternalClassType(x, t, false).value)
    ensures LentPointer(x, t).Resolved?
  {
    var idx := UnitLookup(x.moduleMap[RPartition(t.name).0], t.name).value.index;
    ResolveExternalClass(x, t.name, false, idx);
  }

  /** Clearing the pointers keeps every ClassType resolvable. */
  lemma ClearKeepsResolvable(x: External, n: Node)
    requires forall m :: m in Preorder(n) ==> ResolvableAt(x, m)
    ensures forall m :: m in Preorder(ClearClassPointers(n)) ==> ResolvableAt(x, m)
  {
    var h := TypeHook(ClearPointer);
    var P := (m: Node) => ResolvableAt(x, m);
    ResolvableRebuilds(x, P);
    ClearedLeavesResolvable(x, P, n);
    MapNodesEverywhere(h, {KClassType}, P, n);
    assert Everywhere(P, ClearClassPointers(n));
  }

  /** Only ClassType nodes can be unresolvable, and rebuilding keeps a node's kind. */
  lemma ResolvableRebuilds(x: External, P: Node -> bool)
    requires forall m :: P(m) == ResolvableAt(x, m)
    ensures forall m, cs :: KindOf(m) !in {KClassType} && P(m) && WithChildren(m, cs).Some? ==> P(WithChildren(m, cs).value)
  {
    forall m, cs | KindOf(m) !in {KClassType} && P(m) && WithChildren(m, cs).Some?
      ensures P(WithChildren(m, cs).value)
    {
      var r := WithChildren(m, cs).value;
      assert KindOf(r) == KindOf(m);
      if r.TypeNode? && r.t.ClassType? {
        assert false;
      }
    }
  }

  lemma ClearedLeavesResolvable(x: External, P: Node -> bool, n: Node)
    requires forall m :: P(m) == ResolvableAt(x, m)
    requires forall m :: m in Preorder(n) ==> ResolvableAt(x, m)
    ensures forall m :: m in Preorder(n) && KindOf(m) in {KClassType} && TypeHook(ClearPointer)(m).Ok? ==>
      Everywhere(P, TypeHook(ClearPointer)(m).value)
  {
    forall m | m in Preorder(n) && KindOf(m) in {KClassType} && TypeHook(ClearPointer)(m).Ok?
      ensures Everywhere(P, TypeHook(ClearPointer)(m).value)
    {
      ClassKind(m);
      assert ResolvableAt(x, m);
      ClearedLeafResolvable(x, P, m.t);
      assert TypeHook(ClearPointer)(m) == Ok(TypeNode(ClassType(m.t.name, Unresolved)));
    }
  }

  lemma ClearedLeafResolvable(x: External, P: Node -> bool, t: Type)
    requires forall m :: P(m) == ResolvableAt(x, m)
    requires t.ClassType? && ResolvesToClass(x, t.name)
    ensures Everywhere(P, TypeNode(ClassType(t.name, Unresolved)))
  {
    var c := TypeNode(ClassType(t.name, Unresolved));
    assert P(c);
    LeafPreorder(c);
  }

  /** After the targeted pass every ClassType has a pointer, when all of them resolve. */
  lemma RelinkedLinked(x: External, u: TypeDeclUnit)
    requires x.fullNames && x.selfName.None?
    requires forall m :: m in Preorder(UnitNode(u)) ==> ResolvableAt(x, m)
    ensures Everywhere(Linked, UnitNode(Relinked(x, u)))
  {
    var h := TypeHook(RelinkPointer(x));
    forall m | m in Preorder(UnitNode(u)) && KindOf(m) in {KClassType} && h(m).Ok?
      ensures Everywhere(Linked, h(m).value)
    {
      ClassKind(m);
      ResolvedNode(x, m.t);
      assert h(m) == Ok(TypeNode(ClassType(m.t.name, LentPointer(x, m.t))));
      LeafPreorder(h(m).value);
    }
    MapNodesEverywhere(h, {KClassType}, Linked, UnitNode(u));
  }

  /**
   * Storing a module and loading it under the same name gives back the
   * module, equal up to its class pointers, with every ClassType pointer
   * set: when every ClassType names a class of a loaded module (the
   * stored module itself registered under its own name).
   */
  lemma StoreLoadRoundTrip(ast: TypeDeclUnit, moduleMap: map<string, TypeDeclUnit>)
    requires !EndsWith(ast.name, InitSuffix)
    requires forall m :: m in Preorder(UnitNode(ast)) ==> ResolvableAt(LoadLookup(StoreRecord(ast).ast, moduleMap), m)
    ensures EnsureName(StoreRecord(ast), ast.name) == (StoreRecord(ast), None)
    ensures var r := Process(StoreRecord(ast), moduleMap).0;
      r.Ok? && ClearUnit(r.value) == ClearUnit(ast) && Everywhere(Linked, UnitNode(r.value))
  {
    var rec := StoreRecord(ast);
    var c := rec.ast;
    assert c == ClearUnit(ast);
    var x := LoadLookup(c, moduleMap);
    var ts := rec.classTypeNodes.value;
    ClearKeepsResolvable(x, UnitNode(ast));
    ClearAfter(ClearPointer, UnitNode(ast));
    assert ClearUnit(c) == ClearUnit(ast);
    if ts == [] {
      forall m | m in Preorder(UnitNode(c))
        ensures Linked(m)
      {
        if m.TypeNode? && m.t.ClassType? {
          ClassTypesInMembers(UnitNode(c), m.t);
        }
      }
    } else {
      forall i | 0 <= i < |ts|
        ensures ExternalClassType(x, ts[i], false).Ok? && KeepsNode(ExternalClassType(x, ts[i], false).value)
      {
        ClassTypesInMembers(UnitNode(c), ts[i]);
        ResolvedNode(x, ts[i]);
      }
      assert Scan(x, ts) == Ok(true);
      RelinkedLinked(x, c);
      ClearAfter(RelinkPointer(x), UnitNode(c));
    }
  }
}
