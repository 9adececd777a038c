# pytype stub front end, modelled in Dafny

This project models three cooperating pieces of pytype's front end for
stub (`.pyi`) files:

- **The stub builder** (`pytype/pyi/parser.py`). The grammar driver calls
  back into the `_Parser` object while it reads a stub. That object keeps a
  stack of condition scopes (`if sys.version_info >= ...:` and
  `if sys.platform == ...:`). It builds types (`new_type`,
  `_parameterized_type`, `join_types`), validates parameter lists, builds and
  merges function signatures, and merges properties into constants. It also
  checks class bodies for duplicate names, generates the classes behind
  `NamedTuple`, records TypeVars and imports, and finally assembles the
  module's `TypeDeclUnit`.
- **The tree passes** (`pytype/pytd/parse/visitors.py`). The model has:
  - the visitor engine with its Enter/Visit/Leave hooks;
  - the visit-set pruning computed in `Visitor.__init__`;
  - the C3-style `MergeSequences`;
  - `AdjustTypeParameters`, which scopes type parameters;
  - the name-resolution passes: `FillInModuleClasses`,
    `LookupExternalTypes`, `LookupLocalTypes` and `VerifyLookup`;
  - the smaller passes: `CollectDependencies`, `ReplaceTypes`,
    `CanonicalOrderingVisitor`, `ExpandSignature(s)`, `InventStarArgParams`,
    `AddNamePrefix`, `ClearClassPointers` and `PrintVisitor._BuildUnion`.
- **The cache layer** (`pytype/pytd/serialize_ast.py`):
  - `RenameModuleVisitor`;
  - `StoreAst`, which computes dependencies, clears class pointers and
    indexes the ClassType nodes;
  - `EnsureAstName` and `ProcessAst`, which reload a stored module and relink
    its class pointers. They use either the recorded nodes only or the whole
    tree.

The pytd node classes are not part of this model, so `pytd.dfy` defines the
intermediate representation itself. It holds:

- `TypeDeclUnit`, `Class`, `Function`, `Signature`, `Parameter`, `Constant`
  and `Alias`;
- the type nodes `NamedType`, `ClassType`, `GenericType`, `TupleType`,
  `CallableType`, `UnionType`, `TypeParameter`, `AnythingType` and
  `NothingType`;
- a single `Node` sum over all of these, with `Children` and `WithChildren`
  in field order;
- a table of which node kinds a kind may hold. This table stands in for the
  preconditions that `_GetAncestorMap` reads by reflection.

A `ClassType`'s `cls` pointer is a tagged value. It is `Unresolved`, or
`Resolved(table, index)`, which names a class by its position in a module's
symbol table. This replaces the in-place pointer writes and the identity
checks of the Python code.

The visitor engine (`visitor.dfy`) rewrites a tree bottom-up:
- `Enter` runs before the children;
- `Visit` runs on the node rebuilt from the rewritten children;
- `Leave` runs last;
- the first exception wins.

A pass whose only hooks are stateless Visit hooks computes `MapNodes`
(`traversal.dfy`). A pass whose state changes only at scope nodes is a
`MapNodes` per scope level (`scopes.dfy`). Each concrete pass is proved
against one of these forms.

Module layout:

| file | module | what it holds |
|---|---|---|
| wrappers.dfy | Wrappers | Option and Result |
| names.dfy | Names | string helpers: `rpartition`, `find`, `startswith`, integer printing |
| pytd.dfy | Pytd | the node datatypes, kinds, children and rebuilding, sizes |
| visitor.dfy | Visit | pass exceptions, visit-set closure, the generic rewrite, pruning soundness |
| traversal.dfy | Traversal | preorder, Enter-only folds, stateless maps and their laws |
| scopes.dfy | Scopes | visitors whose state changes only at scope nodes |
| mro.dfy | Mro | `MergeSequences` |
| typeparams.dfy | TypeParams | `AdjustTypeParameters` as a class with the visitor's fields |
| lookup.dfy | Lookup | `TypeDeclUnit.Lookup`, `FillInModuleClasses`, `VerifyLookup`, `NamedTypeToClassType`, `LookupExternalTypes`, `LookupLocalTypes` |
| passes.dfy | Passes | `CollectDependencies`, `ReplaceTypes`, canonical ordering, signature expansion, `InventStarArgParams`, `_BuildUnion` |
| prefix.dfy | Prefix | `AddNamePrefix` |
| serialize.dfy | Serialize | the cache layer and `ClearClassPointers` |
| conditions.dfy | ParseErrors, Conditions | `ParseError`, `_ConditionScope`, condition evaluation, `_three_tuple` |
| params.dfy | Params | `_validate_params` and the parameter constructors |
| types.dfy | ParserTypes | `new_type`, `_parameterized_type`, `join_types` |
| signatures.dfy | Signatures | decorators, `new_function`, mutators, signature and property merging |
| defs.dfy | Definitions | the value-level parts of `add_class`, `new_named_tuple`, `add_type_var`, `add_import`, `new_constant` and `_build_type_decl_unit` |
| builder.dfy | Builder | the `_Parser` object: its scope stack and accumulated definitions |

Where a docstring and the code disagree, the model follows the code, with
one exception. Each defect listed under "## Findings" is modelled twice: as
written, with a lemma that exhibits it, and corrected. The operations that
call the defective helper use the corrected one, and "## Left out" names
each of them. The
docstring of `ProcessAst` (`pytype/pytd/serialize_ast.py:173-198`) promises
an AssertionError when the module is already in `module_map`. The code
never raises it: it overwrites the entry. `Serialize.ProcessAst` overwrites
it too.

## Model

| member | source | states |
|---|---|---|
| Visit.Closure | pytype/pytd/parse/visitors.py:69-96 | The ancestor computation: the result contains the start kinds and is closed under the "may hold" table. |
| Visit.ClosureLeast | pytype/pytd/parse/visitors.py:69-96 | The closure is the least such set: it lies inside every closed superset of the start kinds. |
| Visit.KindNamedName | pytype/pytd/parse/visitors.py:148-154 | A handler name `Enter<K>`/`Visit<K>`/`Leave<K>` names exactly the node class `K`: reading a kind's name back gives the kind. |
| Visit.VisitSetMeaning | pytype/pytd/parse/visitors.py:156-175 | When the visitor does not visit every kind (no custom Enter/Visit/Leave and no unknown handler name), it descends into kind `k` iff some handled kind can occur beneath a `k` node. |
| Visit.PruningSound | pytype/pytd/parse/visitors.py:117-120 | Skipping the kinds outside the visit set never changes a traversal's result or state. |
| Visit.Untouched | pytype/pytd/parse/visitors.py:117-120 | A tree that holds no handled kind comes back unchanged, with the visitor's state untouched. |
| Visit.PrunedUntouched | pytype/pytd/parse/visitors.py:156-175 | A node outside the visit set holds no handled kind, so even the unpruned traversal leaves it alone. |
| Traversal.EnterOnlyIsFold | pytype/pytd/parse/visitors.py:184-194 | A visitor with only Enter hooks returns the tree unchanged and threads its state through the nodes in preorder. |
| Traversal.FoldEnterCheck | pytype/pytd/parse/visitors.py:823-831 | A stateless checker passes iff its Enter hook accepts every hooked node. |
| Traversal.FoldEnterCollects | pytype/pytd/parse/visitors.py:1540-1553 | A collecting visitor ends with its start list followed by what each node contributes, in preorder. |
| Traversal.RebuildFits | pytype/pytd/parse/visitors.py:107-110 | Rebuilding a node from children of the same categories never violates its field types, and keeps the node's category. |
| Traversal.RebuiltChildren | pytype/pytd/parse/visitors.py:184-194 | A node rebuilt from `cs` has exactly `cs` as its children. |
| Traversal.RebuildTwice | pytype/pytd/parse/visitors.py:184-194 | Rebuilding twice equals rebuilding the original once, from the second children. |
| Traversal.NodeMapperIsMap | pytype/pytd/parse/visitors.py:184-194 | A stateless visitor with Visit hooks only computes the bottom-up map `MapNodes`, whatever its state. |
| Traversal.MapNodesTotal | pytype/pytd/parse/visitors.py:107-110 | A hook that never raises and keeps categories makes the whole map succeed with a node of the same category. |
| Traversal.MapTypes | pytype/pytd/parse/visitors.py:184-194 | A type rewrite applied at hooked kinds cannot fail and keeps the root's category. |
| Traversal.MapNodesKeeps | pytype/pytd/parse/visitors.py:184-194 | A map fails only with an exception its hook raised at some node. |
| Traversal.MapNodesEverywhere | pytype/pytd/parse/visitors.py:184-194 | If the hook and rebuilding establish `P`, `P` holds at every node of the result. |
| Traversal.MapNodesCompose | pytype/pytd/parse/visitors.py:184-194 | For leaf-kind maps, running one map and then another equals one map whose hook runs both. |
| Traversal.MapNodesIdempotent | pytype/pytd/parse/visitors.py:1412-1450 | A pass whose hook only rearranges children, and is idempotent on its own output, is idempotent on whole trees. |
| Traversal.MapNodesUntouched | pytype/pytd/parse/visitors.py:117-120 | A tree holding no hooked kind is returned as it was. |
| Traversal.MapNodesIdentity | pytype/pytd/parse/visitors.py:184-194 | A hook that returns each node unchanged leaves every tree unchanged. |
| Scopes.FrozenIsMap | pytype/pytd/parse/visitors.py:184-194 | A visitor whose state does not change outside scope nodes rewrites a scope-free tree as the stateless map does. |
| Scopes.ScopeIsMap | pytype/pytd/parse/visitors.py:184-194 | Inside a scope node the visitor rewrites each child with the map of the scope's inner state. |
| Scopes.LevelList | pytype/pytd/parse/visitors.py:184-194 | The children of a node are rewritten one level at a time: scope children in the inner state, the others in the outer state. |
| Scopes.MapNodesFails | pytype/pytd/parse/visitors.py:184-194 | A map fails on any tree that holds a leaf at which the hook raises. |
| Mro.MergeSequences | pytype/pytd/parse/visitors.py:1622-1662 | The result holds only input elements. For duplicate-free inputs, a result is a valid merge: every element exactly once, every input order kept. `None` (ValueError) means no valid merge exists. |
| Mro.PickCandidate | pytype/pytd/parse/visitors.py:1643-1659 | Either every non-empty head is blocked, or the pick is the head of some sequence that is a SINGLETON or sits in no other sequence's tail. Picking shrinks the sequences, and for duplicate-free sequences removes the pick from each of them. |
| Mro.DropHeads | pytype/pytd/parse/visitors.py:1655-1658 | `del seq[0]` on every sequence whose head is the emitted element; the others are kept. |
| Mro.StuckNoMerge | pytype/pytd/parse/visitors.py:1652-1661 | When every remaining head is blocked, no valid merge of the inputs exists. |
| Mro.DoneIsMerge | pytype/pytd/parse/visitors.py:1641-1642 | When all sequences are empty, the emitted list is a valid merge. |
| Mro.MergeStep | pytype/pytd/parse/visitors.py:1646-1662 | Emitting an unblocked head keeps the merge invariant. |
| TypeParams.TemplateItems | pytype/pytd/parse/visitors.py:1684-1695 | The template items of a type are type parameters. A type parameter is its own item; a generic type, including a tuple or a Callable (subclasses of GenericType), contributes the items of its arguments; any other non-union type has none. |
| TypeParams.ParentTemplates | pytype/pytd/parse/visitors.py:1707-1715 | One list of type parameters per generic parent (tuple and Callable parents included), and no more lists than parents. |
| TypeParams.ParentTemplatesAllGeneric | pytype/pytd/parse/visitors.py:1707-1715 | When every parent is generic, there is exactly one template per parent, in order, holding that parent's template items. |
| TypeParams.TupleAndCallableParents | pytype/pytd/parse/visitors.py:1684-1715 | `class A(Tuple[T, int])` and `class A(Callable[..., T])` both get the template `[T]`. |
| TypeParams.JoinNames | pytype/pytd/parse/visitors.py:1774-1776 | `".".join(n for n in [a, b] if n)`: empty iff both are falsy, dotted when both are set, otherwise the set one. |
| TypeParams.SetToSeq | pytype/pytd/parse/visitors.py:1759-1760 | `tuple(s)` of a set holds each element exactly once; this is `tuple(self.template_typeparams)` in `VisitSignature` here and `tuple(type_params_to_add)` in `VisitTypeDeclUnit` at visitors.py:1704. |
| TypeParams.AdjustTypeParameters.constructor | pytype/pytd/parse/visitors.py:1673-1682 | The visitor starts with no bound parameters, no template, no class, function or constant, and an empty collection. |
| TypeParams.AdjustTypeParameters.EnterClass | pytype/pytd/parse/visitors.py:1707-1731 | The class template is the merge of the template items of the generic parents (tuple and Callable parents included). A failed merge is a ContainerError. A template item already bound by an enclosing class is a "Duplicate type parameter" ContainerError. Otherwise the template is bound and the class name recorded. |
| TypeParams.AdjustTypeParameters.LeaveClass | pytype/pytd/parse/visitors.py:1733-1739 | The class's own parameters are unbound and the class is forgotten; the other fields are kept. |
| TypeParams.AdjustTypeParameters.ClassBindingsRestored | pytype/pytd/parse/visitors.py:1707-1739 | After EnterClass and LeaveClass, the bound parameters are those before the class. |
| TypeParams.AdjustTypeParameters.VisitClass | pytype/pytd/parse/visitors.py:1741-1750 | The class keeps every field but its template, which holds one item per template type parameter, in merge order. |
| TypeParams.AdjustTypeParameters.EnterSignature | pytype/pytd/parse/visitors.py:1752-1754 | Collecting the signature's own parameters starts from the empty set; nothing else changes. |
| TypeParams.AdjustTypeParameters.LeaveSignature | pytype/pytd/parse/visitors.py:1756-1757 | Collection stops; nothing else changes. |
| TypeParams.AdjustTypeParameters.VisitSignature | pytype/pytd/parse/visitors.py:1759-1760 | The signature's template is exactly the collected parameters, each once; the other fields are kept. |
| TypeParams.AdjustTypeParameters.EnterFunction | pytype/pytd/parse/visitors.py:1762-1763 | The function name is recorded; nothing else changes. |
| TypeParams.AdjustTypeParameters.LeaveFunction | pytype/pytd/parse/visitors.py:1765-1766 | The function name is cleared; nothing else changes. |
| TypeParams.AdjustTypeParameters.EnterConstant | pytype/pytd/parse/visitors.py:1768-1769 | The constant name is recorded; nothing else changes. |
| TypeParams.AdjustTypeParameters.LeaveConstant | pytype/pytd/parse/visitors.py:1771-1772 | The constant name is cleared; nothing else changes. |
| TypeParams.AdjustTypeParameters.Scope | pytype/pytd/parse/visitors.py:1774-1780 | A parameter bound by the class is scoped by the class name; any other by `Class.function`, or the function name outside a class. |
| TypeParams.AdjustTypeParameters.VisitTypeParameter | pytype/pytd/parse/visitors.py:1782-1801 | Inside a constant, a parameter that no enclosing class binds raises UnboundTypeParameter naming it and the constant, and nothing is recorded. Otherwise it gets its scope when that is non-empty; inside a signature it joins the template unless a class binds it; and it is recorded. |
| TypeParams.AdjustTypeParameters.VisitTypeDeclUnit | pytype/pytd/parse/visitors.py:1697-1705 | The unit's declared type parameters are kept. Each visited parameter whose name is not declared is appended once, without its scope. |
| Lookup.UnitLookup | pytype/pytd/parse/visitors.py:914-946 | `TypeDeclUnit.Lookup`: the item found is called `name`; KeyError iff nothing is declared under the name; a class item carries its position. |
| Lookup.LookupFindsClass | pytype/pytd/parse/visitors.py:650-679 | A class declared at position `i` is what looking up its name finds, unless an earlier kind of declaration takes the name. |
| Lookup.ToType | pytype/pytd/parse/visitors.py:685-707 | `_ToType`: a constant stays a constant only when constants are allowed; a class becomes a ClassType pointing at its table entry. |
| Lookup.ToTypeIsType | pytype/pytd/parse/visitors.py:685-707 | With constants disallowed every item becomes a type: a constant becomes Any and an alias its type. |
| Lookup.ModulesToTry | pytype/pytd/parse/visitors.py:661-668 | A dotted name tries its own module, then `*`, then `__builtin__.` in `*`. Every order ends with `*` and `__builtin__.` in `*`. |
| Lookup.FirstClass | pytype/pytd/parse/visitors.py:669-679 | The pointer comes from the first attempt that finds a class; `None` iff no attempt finds one. |
| Lookup.FillInOwnModuleFirst | pytype/pytd/parse/visitors.py:661-679 | A dotted name whose own module declares a class of that name is resolved there. |
| Lookup.FillClassTypeKeepsName | pytype/pytd/parse/visitors.py:650-679 | Filling in a ClassType keeps its name. The pointer is left as it was when no table finds a class, and set when one does. |
| Lookup.FillInModuleClassesVisit | pytype/pytd/parse/visitors.py:628-682 | The visitor computes `FillInModuleClasses` over the whole tree and never fails. |
| Lookup.VerifyLookupMeaning | pytype/pytd/parse/visitors.py:823-831 | VerifyLookup raises iff a NamedType or a ClassType without pointer is left; the exception is a ValueError and the tree is unchanged. |
| Lookup.NamedTypeToClassTypeRemovesNames | pytype/pytd/parse/visitors.py:761-774 | No NamedType is left after the pass. |
| Lookup.ResolveUsingGetattr | pytype/pytd/parse/visitors.py:893-904 | The answer is empty exactly when the module declares no `__getattr__`. An answer is the return type of a `__getattr__` function with exactly one signature. |
| Lookup.ResolveExternal | pytype/pytd/parse/visitors.py:914-946 | A name that is a module becomes Any. An undotted name, or one of the module itself, is left to others. An error is raised only for a dotted name. |
| Lookup.ResolveExternalClass | pytype/pytd/parse/visitors.py:914-946 | With full names, a dotted name whose module declares a class of that name resolves to that class. |
| Lookup.ConstantOfConstant | pytype/pytd/parse/visitors.py:906-947 | A constant whose type names another module's constant gets type Any. |
| Lookup.ResolveLocal | pytype/pytd/parse/visitors.py:958-981 | An undotted name is looked up first as `unit.name + "." + name`, then bare, and becomes `_ToType` of the item found with constants disallowed; it fails with SymbolLookupError iff both lookups miss. A name of the unit's own module is looked up as it is, becomes `_ToType` of its item, and raises KeyError iff it is not declared. A dotted name of another module is kept as a NamedType. |
| Lookup.LookupLocalTypesErrors | pytype/pytd/parse/visitors.py:958-983 | LookupLocalTypes fails only with SymbolLookupError or KeyError. On success the unit keeps its name. |
| Passes.ModuleOf | pytype/pytd/parse/visitors.py:1547-1550 | The module part is `None` iff the name has no dot. Otherwise it is the text before the last dot. |
| Passes.Dependencies | pytype/pytd/parse/visitors.py:1540-1553 | Exactly the module parts of the dotted NamedType and ClassType names of the tree. |
| Passes.CollectDependenciesMeaning | pytype/pytd/parse/visitors.py:1540-1553 | Run from an empty set, the visitor collects exactly the tree's dependencies and changes no node. |
| Passes.ReplaceTypes | pytype/pytd/parse/visitors.py:986-1020 | The replacement keeps the root's category. |
| Passes.ReplaceTypesVisitor | pytype/pytd/parse/visitors.py:986-1020 | The visitor (Visit hooks on NamedType and ClassType) computes `ReplaceTypes`. |
| Passes.ReplaceTypesRemoves | pytype/pytd/parse/visitors.py:1007-1015 | When no replacement mentions a mapped name, no mapped name is referred to afterwards. |
| Passes.ReplaceTypesEmpty | pytype/pytd/parse/visitors.py:986-1020 | The empty mapping changes nothing. |
| Passes.Sort | pytype/pytd/parse/visitors.py:1412-1450 | `sorted(xs)`: the result is a permutation of the input, sorted by key. |
| Passes.SortSorted | pytype/pytd/parse/visitors.py:1412-1450 | A sorted list is its own sort. |
| Passes.CanonicalSorts | pytype/pytd/parse/visitors.py:1412-1450 | Each hook sorts each of its node's lists and keeps it a permutation: the unit's five lists, a class's methods and constants, a function's signatures (when asked), a signature's exceptions (its template is kept), a union's members. |
| Passes.CanonicalTwice | pytype/pytd/parse/visitors.py:1412-1450 | The hook applied to its own result changes nothing more. |
| Passes.CanonicalOrderingIdempotent | pytype/pytd/parse/visitors.py:1412-1450 | Ordering an ordered tree changes nothing. |
| Passes.CanonicalUnitSorted | pytype/pytd/parse/visitors.py:1420-1426 | An ordered unit has its constants, type parameters, classes, functions and aliases sorted. |
| Passes.CanonicalOrderingVisitor | pytype/pytd/parse/visitors.py:1412-1450 | The visitor is stateless and computes `CanonicalOrdering`. |
| Passes.ProductCount | pytype/pytd/parse/visitors.py:1571-1581 | `itertools.product` has as many tuples as the product of the list lengths. |
| Passes.ProductMembers | pytype/pytd/parse/visitors.py:1571-1581 | A tuple is in the product iff it picks one element of each list, in list order. |
| Passes.ExpandSignatureCount | pytype/pytd/parse/visitors.py:1556-1583 | A signature expands to exactly the product of its union parameters' sizes. |
| Passes.ExpandSignatureMembers | pytype/pytd/parse/visitors.py:1556-1583 | An expansion keeps everything but the parameters. Each of its parameters is the original parameter, or that parameter narrowed to one member of its union. |
| Passes.ExpandSignatureOrder | pytype/pytd/parse/visitors.py:1556-1583 | Expansions come in product order: the first parameter varies slowest. |
| Passes.ExpandAllMembers | pytype/pytd/parse/visitors.py:1617-1619 | A function's new signature list holds exactly the expansions of its signatures. |
| Passes.ExpandSignaturesFunction | pytype/pytd/parse/visitors.py:1586-1619 | A function node is replaced by one holding the concatenated expansions of its signatures. |
| Passes.ExpandSignaturesVisitor | pytype/pytd/parse/visitors.py:1586-1619 | The visitor is stateless and computes `ExpandSignatures`. |
| Passes.FreshName | pytype/pytd/parse/visitors.py:196-206 | The name is not taken, and it is the first of `base`, `_base`, `__base`, ... that is free. |
| Passes.InventStarArgParams | pytype/pytd/parse/visitors.py:196-206 | `*args: tuple` and `**kwargs: dict`, each the first untaken underscore-prefixed variant of its base name. |
| Passes.NonNone | pytype/pytd/parse/visitors.py:587-604 | Exactly the members other than `None`, and fewer of them when `None` was among them. |
| Passes.BuildUnion | pytype/pytd/parse/visitors.py:587-604 | A single type prints alone. A union with `None` prints as `Optional[...]` of the rest. Any other union prints as `Union[...]`. |
| Prefix.AddNamePrefixLevels | pytype/pytd/parse/visitors.py:1466-1537 | The pass rewrites each member of the unit on its own: classes in the class-body state, the others in the module state. |
| Prefix.HookShape | pytype/pytd/parse/visitors.py:1496-1537 | The hook keeps each node's category and raises only on a ClassType whose pointer is already set. |
| Prefix.AddNamePrefixNames | pytype/pytd/parse/visitors.py:1485-1537 | The unit keeps its name and the length of each list. Every module-level constant, class, function and alias of the result is named `unit.name + "." + old name`. |
| Prefix.ConstantsRenamed | pytype/pytd/parse/visitors.py:1519-1534 | Each module-level constant gets the prefix. |
| Prefix.ClassesRenamed | pytype/pytd/parse/visitors.py:1507-1508 | Each class gets the prefix. |
| Prefix.FunctionsRenamed | pytype/pytd/parse/visitors.py:1519-1528 | Each module-level function gets the prefix. |
| Prefix.AliasesRenamed | pytype/pytd/parse/visitors.py:1519-1537 | Each alias gets the prefix. |
| Prefix.AddNamePrefixKeepsMembers | pytype/pytd/parse/visitors.py:1489-1522 | The methods and constants of a class keep their names. |
| Prefix.AddNamePrefixTypeParams | pytype/pytd/parse/visitors.py:1510-1517 | A module-level type parameter keeps its name. Its scope becomes the unit's name when it had none, and the unit's name, a dot and the old scope otherwise. |
| Prefix.AddNamePrefixConstantType | pytype/pytd/parse/visitors.py:1501-1505 | A plain name that names a local class gets the prefix; any other name is kept. |
| Prefix.AddNamePrefixFails | pytype/pytd/parse/visitors.py:1496-1499 | The pass fails exactly when the unit holds a ClassType whose pointer is already set, and then with that ValueError. |
| Serialize.NewRenamer | pytype/pytd/serialize_ast.py:57-73 | An empty old module name raises ValueError; otherwise the renamer holds both names. |
| Serialize.MaybeNewNameAsWritten | pytype/pytd/serialize_ast.py:75-89 | As written: any name starting with the old name has that occurrence replaced; others are kept. |
| Serialize.MaybeNewName | pytype/pytd/serialize_ast.py:75-89 | As documented: a name local to the old module (the module itself or a dotted name beneath it) is moved under the new name; others are kept. |
| Serialize.MaybeNewNameInverse | pytype/pytd/serialize_ast.py:75-89 | Renaming back with the names swapped restores every name the reverse renaming would move. |
| Serialize.DotBoundaryAsWritten | pytype/pytd/serialize_ast.py:86-87 | Finding 1: `foo.bar_util.X` is renamed by the code as written although it is not inside `foo.bar`. |
| Serialize.MissingScopeAsWritten | pytype/pytd/serialize_ast.py:108-112 | Finding 2: a unit holding a type parameter without a scope cannot be renamed by the code as written. |
| Serialize.RenameModule | pytype/pytd/serialize_ast.py:98-121 | The rename is a stateless map that never fails and keeps the root's kind. |
| Serialize.RenameModuleVisitor | pytype/pytd/serialize_ast.py:54-121 | The visitor computes `RenameModule`. |
| Serialize.RenameUnit | pytype/pytd/serialize_ast.py:105-106 | The unit takes the new module name. |
| Serialize.RenameRoundTrip | pytype/pytd/serialize_ast.py:54-121 | Renaming a module and renaming it back restores the tree, when every name in it is reversible. |
| Serialize.ClearClassPointersClears | pytype/pytd/parse/visitors.py:1900-1905 | No ClassType keeps a pointer afterwards. |
| Serialize.ClearAfter | pytype/pytd/parse/visitors.py:1900-1905 | Clearing pointers after any ClassType rewrite that keeps names equals clearing them directly. |
| Serialize.FindClassTypesMeaning | pytype/pytd/serialize_ast.py:20-28 | Run from an empty list, the indexer lists the tree's ClassType nodes in visiting order and changes nothing. |
| Serialize.ClassTypesInMembers | pytype/pytd/serialize_ast.py:20-28 | The list holds exactly the ClassTypes of the tree. |
| Serialize.SerializableAst.constructor | pytype/pytd/serialize_ast.py:30-52 | The record holds the given AST, dependencies and class-type index. |
| Serialize.StoredName | pytype/pytd/serialize_ast.py:133-135 | `X.__init__` is stored as `X`; any other name as itself. |
| Serialize.ClearUnit | pytype/pytd/serialize_ast.py:141-142 | The unit with its pointers cleared keeps its name. |
| Serialize.StoreRecord | pytype/pytd/serialize_ast.py:123-149 | The stored index lists only ClassTypes. |
| Serialize.StoreAst | pytype/pytd/serialize_ast.py:123-149 | A fresh record holding exactly what `StoreRecord` computes. |
| Serialize.StoreRecordName | pytype/pytd/serialize_ast.py:133-135 | A package's module is stored under the package name; an ordinary module keeps its own. |
| Serialize.StoreRecordIndex | pytype/pytd/serialize_ast.py:137-146 | No stored ClassType keeps a pointer, and the index lists exactly the stored tree's ClassTypes. |
| Serialize.EnsureAstName | pytype/pytd/serialize_ast.py:152-170 | The record and the error after the call are those `EnsureName` gives for the record before it. |
| Serialize.EnsureNameMeaning | pytype/pytd/serialize_ast.py:152-170 | Under the stored name the record is untouched. Under another name the index is dropped and the dependencies kept. An empty stored name raises ValueError; otherwise the AST takes the new name. |
| Serialize.EnsureNameRoundTrip | pytype/pytd/serialize_ast.py:152-170 | Loading under another name and then under the stored name again gives the stored AST back. |
| Serialize.Scan | pytype/pytd/serialize_ast.py:204-211 | The targeted relink is kept iff the lookup resolves every recorded node to itself. An exception comes from one of the nodes. |
| Serialize.Unrestorable | pytype/pytd/serialize_ast.py:210-216 | A KeyError becomes UnrestorableDependencyError with the same key; anything else passes through. |
| Serialize.Relinked | pytype/pytd/serialize_ast.py:204-209 | The targeted relink lends each ClassType of the unit the pointer the lookup finds. |
| Serialize.ProcessAst | pytype/pytd/serialize_ast.py:173-217 | The raw AST is registered under its own name, and the AST and dependencies are kept. The result and the index are those of `Process`: an empty index, which Python treats as false but which is not None, leaves the tree as it is. |
| Serialize.ProcessMeaning | pytype/pytd/serialize_ast.py:199-217 | A KeyError never escapes. Without an index the whole tree is traversed. With a non-empty index, the index is dropped and the whole tree traversed exactly when some recorded node does not resolve to itself. |
| Serialize.LoadRenamedTraversesAll | pytype/pytd/serialize_ast.py:168-217 | Loading under a new name always traverses the whole renamed unit. |
| Serialize.ClearKeepsResolvable | pytype/pytd/serialize_ast.py:141-146 | Clearing the pointers keeps every resolvable ClassType resolvable. |
| Serialize.RelinkedLinked | pytype/pytd/serialize_ast.py:204-209 | After the targeted relink every ClassType has a pointer, when all of them resolve. |
| Serialize.StoreLoadRoundTrip | pytype/load_pytd_test.py:231-247 | Storing then loading under the same name leaves the record untouched. The loaded tree equals the original once class pointers are cleared on both, and every class pointer in it is set. |
| Conditions.ConditionScope.constructor | pytype/pyi/parser.py:36-47 | The top scope is active and cannot trigger; a nested scope starts inactive and can trigger iff its parent is active. |
| Conditions.ConditionScope.ApplyCondition | pytype/pyi/parser.py:49-64 | The scope becomes active iff it could trigger and the value is true; it can trigger again only if it could and the value is false. It is triggered at most once. |
| Conditions.ActivityFirstTrue | pytype/pyi/parser.py:438-452 | In an if/elif/else chain, a clause is active iff its scope can trigger, its condition is true and no earlier condition was. |
| Conditions.ActivityAtMostOnce | pytype/pyi/parser.py:49-64 | No two clauses of one chain are both active. |
| Conditions.FirstActive | pytype/pyi/parser.py:454-460 | The definitions of the first clause whose flag is true, or none when no flag is. |
| Conditions.ThreeTupleEmptyAsWritten | pytype/pyi/parser.py:1106-1108 | Finding 3: as written, the empty tuple comes out with two elements, unlike `(0,)`. |
| Conditions.ThreeTuple | pytype/pyi/parser.py:1106-1108 | Exactly three elements: the tuple's first three, padded with zeros. |
| Conditions.ThreeTupleAgrees | pytype/pyi/parser.py:1106-1108 | The code as written and the corrected definition agree on every non-empty tuple. |
| Conditions.ThreeTupleIdempotent | pytype/pyi/parser.py:1106-1108 | Normalising twice changes nothing, and a three-tuple is left alone. |
| Conditions.LexLessStrict | pytype/pyi/parser.py:23-30 | Python's tuple order is strict. |
| Conditions.LexLessTotal | pytype/pyi/parser.py:23-30 | Any two different tuples are ordered one way or the other. |
| Conditions.Index | pytype/pyi/parser.py:421-424 | `version[i]` is defined iff `-len <= i < len`; a negative index counts from the end. |
| Conditions.Slice | pytype/pyi/parser.py:421-424 | `version[lo:hi]` never raises; the full slice is the tuple and `[:k]` its prefix. |
| Conditions.EvalComparison | pytype/pyi/parser.py:395-436 | The error cases and their messages: unsupported name; integer key with a non-integer; slice with a non-integer-tuple; platform with a non-string; platform with an operator other than `==`/`!=`. Platform comparisons compare the platform string. |
| Conditions.EvalCondition | pytype/pyi/parser.py:375-393 | `or` is true when its left side is, evaluates its right side only when the left is false, and propagates an error of the left side. |
| Conditions.VersionAtLeast | pytype/pyi/parser.py:411-436 | `sys.version_info >= (major, minor)` compares the version and `(major, minor, 0)` as three-tuples. |
| Conditions.VersionElement | pytype/pyi/parser.py:411-436 | `sys.version_info[i] op v` compares that element, counting negative indices from the end, and raises "tuple index out of range" outside the tuple. |
| Conditions.VersionPrefixEquals | pytype/pyi/parser.py:411-436 | `sys.version_info[:k] == t`, with `t` of length `k` and `k` at most 3, holds iff the version's first `k` elements are `t`. |
| Params.TypeForDefault | pytype/pyi/parser.py:1070-1081 | `None` gives NoneType, a float gives `float`, an int gives `int`, anything else `object`. |
| Params.NormalParam | pytype/pyi/parser.py:1033-1047 | Optional iff there is a default. A `None` default on a typed parameter gives `Union[type, None]`. A default on an untyped parameter supplies the type. No type and no useful default gives `object`. |
| Params.StarParam | pytype/pyi/parser.py:1050-1057 | `*args` is an optional `tuple`, of the declared element type when there is one. |
| Params.StarStarParam | pytype/pyi/parser.py:1060-1067 | `**kwargs` is an optional `dict` from `str` to the declared value type. |
| Params.FreshFromEmpty | pytype/pyi/parser.py:1001-1004 | The parameters `...` stands for are plain `args` and `kwargs`. |
| Params.ValidateParams | pytype/pyi/parser.py:950-1030 | Succeeds iff no entry is misplaced, and then yields the normal parameters, `*args` and `**kwargs`. It fails with the message of the first misplaced entry. |
| Params.NormalsMeaning | pytype/pyi/parser.py:1023-1025 | A normal parameter is keyword-only exactly when a `*` or `*args` stands before it. |
| Params.WellPlacedShape | pytype/pyi/parser.py:994-1022 | An accepted list has `...` and `**kwargs` only last, at most one `*`/`*args`, and no bare `*` last or before a final `...`. |
| Params.ShapeWellPlaced | pytype/pyi/parser.py:994-1022 | Conversely, every list of that shape is accepted. |
| Params.EllipsisInvents | pytype/pyi/parser.py:996-1005 | A final `...` stands for `*args, **kwargs`, even after a declared `*args`. |
| Params.DeclaredStarArgs | pytype/pyi/parser.py:1013-1022 | Without `...`, `*args` is the one declared. |
| ParserTypes.TupleNotCallable | pytype/pyi/parser.py:575-585 | No type is both a tuple base and a Callable base. |
| ParserTypes.HeterogeneousTuple | pytype/pyi/parser.py:587-592 | A non-empty parameter list gives `TupleType`; the empty one gives `base[nothing]`. |
| ParserTypes.EllipsisToAny | pytype/pyi/parser.py:618-619 | `...` among the parameters stands for Any, position by position. |
| ParserTypes.HomogeneousParameters | pytype/pyi/parser.py:610-616 | `X[T, ...]` is the generic `X[T]` on any base but Callable; `X[..., ...]` raises. |
| ParserTypes.TupleParameters | pytype/pyi/parser.py:617-621 | A tuple base gives `TupleType` with the parameters in order, or `base[nothing]` when they are empty. |
| ParserTypes.ParameterizedCallable | pytype/pyi/parser.py:622-643 | On a Callable base the result is the Callable branch. |
| ParserTypes.CallableParameters | pytype/pyi/parser.py:622-636 | `Callable[[args], ret]` flattens the argument list and appends the return type; a lone list gets Any as its return type. An empty tuple argument list (any generic tuple whose only argument is `nothing`) contributes no argument types. |
| ParserTypes.CallableShapes | pytype/pyi/parser.py:622-643 | A successful Callable is a CallableType whose parameters are the flattened arguments followed by the return type, or a generic of Any and the return type. |
| ParserTypes.CallableErrors | pytype/pyi/parser.py:622-643 | A first argument that is neither a tuple nor Any raises, as do more than two parameters after an argument list. |
| ParserTypes.QualifiedName | pytype/pyi/parser.py:562-566 | An undotted name that names an imported module is replaced by its path. A dotted name whose first component is not an imported module is kept. |
| ParserTypes.NewType | pytype/pyi/parser.py:548-573 | The base type comes from the type map, else from the qualified name. Given parameters, it is parameterised. Without them, `typing.Union` and `typing.Optional` raise "Missing options to ...", and any other base is returned as it is. |
| ParserTypes.NewTypeUnbound | pytype/pyi/parser.py:548-573 | A plain name nothing was imported under stands for itself. |
| ParserTypes.NewTypeThroughModulePath | pytype/pyi/parser.py:548-573 | `m.tail` with `m` imported as `full` becomes `full.tail`. |
| ParserTypes.Leaves | pytype/pyi/parser.py:913-918 | The flattened members hold no union and no `nothing`. |
| ParserTypes.Unique | pytype/pyi/parser.py:919-921 | The members with repeats dropped: the same elements, each once. |
| ParserTypes.UniquePrefix | pytype/pyi/parser.py:913-921 | First occurrences keep their order as more types are appended. |
| ParserTypes.JoinTypes | pytype/pyi/parser.py:896-930 | The deque-and-seen-set loop computes `JoinOf`: flatten, drop `nothing`, drop repeats, then Any, `nothing`, a single type or a union. |
| ParserTypes.JoinAnything | pytype/pyi/parser.py:925-926 | Any among the members makes the join Any. |
| ParserTypes.JoinNothing | pytype/pyi/parser.py:913-930 | The join is `nothing` iff nothing is left once unions are flattened and `nothing`s dropped. |
| ParserTypes.JoinSingle | pytype/pyi/parser.py:923-924 | A single surviving type is returned as itself. |
| ParserTypes.JoinFlat | pytype/pyi/parser.py:896-930 | A joined union holds no nested union, no `nothing`, no Any, no repeats, and at least two members. |
| ParserTypes.JoinIdempotent | pytype/pyi/parser.py:896-930 | Joining a joined type again changes nothing. |
| ParserTypes.JoinFlattens | pytype/pyi/parser.py:913-916 | A union among the types joins as its members in its place. |
| Signatures.KeepDecorator | pytype/pyi/parser.py:933-948 | `overload` and `abstractmethod` are dropped. `staticmethod`, `classmethod` and property decorators are kept. Anything else raises "Decorator ... not supported". |
| Signatures.KeptDecorators | pytype/pyi/parser.py:695-696 | The list succeeds iff every decorator is known, and then holds exactly the decorators that are not ignored. |
| Signatures.MutateParam | pytype/pyi/parser.py:123-131 | The matching parameter gets the mutated type; an optional one raises; others are kept. |
| Signatures.MutateParams | pytype/pyi/parser.py:105-131 | The parameters succeed iff no optional one has the name, and then only the matching ones change. |
| Signatures.ApplyMutatorMeaning | pytype/pyi/parser.py:687-693 | A mutator applies iff some parameter, `*args` and `**kwargs` included, has the name and none of them is optional; otherwise it raises. |
| Signatures.ApplyMutatorChanges | pytype/pyi/parser.py:687-693 | The mutated signature differs from the original only in the parameters of that name, which record the new type. Return type, exceptions and template are kept, as are an optional `*args` or `**kwargs`. |
| Signatures.Exceptions | pytype/pyi/parser.py:674-681 | Exactly the `raise` statements of the body. |
| Signatures.Mutations | pytype/pyi/parser.py:674-681 | Exactly the mutation statements of the body. |
| Signatures.SplitBody | pytype/pyi/parser.py:674-681 | The body loop separates exceptions and mutators, in order. |
| Signatures.RunMutators | pytype/pyi/parser.py:687-693 | The loop computes `ApplyMutators`: every mutator is applied in turn, and the first failure wins. |
| Signatures.NewFunction | pytype/pyi/parser.py:650-704 | The method computes `NewFunctionOf`: validate the parameters, build the signature, apply the mutators in order, then keep at most one decorator ("Too many decorators" otherwise); the first failure wins. |
| Signatures.NewFunctionMeaning | pytype/pyi/parser.py:650-704 | A built function has its name and is not external. Its return type is the declared one, except that `__init__` declared to return Any returns NoneType. It raises the body's exceptions and has no template. Its decorator is one of the given supported decorators, or none when every given decorator is ignored. |
| Signatures.InitReturnsNone | pytype/pyi/parser.py:668-671 | `__init__` declared to return Any returns None; any other return type is kept. |
| Signatures.NewExternalFunction | pytype/pyi/parser.py:706-718 | A PYTHONCODE placeholder with the name, marked external, with an empty signature. |
| Signatures.SplitPartition | pytype/pyi/parser.py:1111-1119 | The methods and properties together are the signatures, each once. |
| Signatures.SplitMethodsAndProperties | pytype/pyi/parser.py:1111-1119 | Property-decorated signatures go apart, both lists in order. |
| Signatures.KindFor | pytype/pyi/parser.py:1187-1193 | `__new__` is always static; otherwise the decorator decides. |
| Signatures.MergeMethodSignatures | pytype/pyi/parser.py:1163-1198 | The OrderedDict loop computes `MergeMethodsOf`. |
| Signatures.MakeMethods | pytype/pyi/parser.py:1185-1198 | One function per name in order of first appearance. |
| Signatures.MergeMethodsFails | pytype/pyi/parser.py:1170-1184 | Merging succeeds iff the signatures are consistent: each name keeps one decorator, has at most one PYTHONCODE, and does not mix PYTHONCODE with pytd signatures. |
| Signatures.MergeMethodsMeaning | pytype/pyi/parser.py:1163-1198 | One function per distinct name, in first-appearance order, names pairwise distinct. Each non-external function holds that name's signatures in declaration order, and `__new__` is static. |
| Signatures.ParseSignatureAsProperty | pytype/pyi/parser.py:1122-1146 | A getter (`property` or `name.getter`, one parameter) gives its return type. A setter (two parameters) or a deleter (one) gives none. Any other shape raises "Unhandled decorator". |
| Signatures.MergePropertySignatures | pytype/pyi/parser.py:1149-1160 | The loop computes `MergePropertiesOf`: one constant per property name, in first-appearance order, typed by the join of the types its getters give, or Any when none is given. |
| Signatures.PropertyConstants | pytype/pyi/parser.py:1157-1160 | One constant per name in the given order, typed by the join of its collected types, or Any when none were collected. |
| Signatures.PropertyTypeMeaning | pytype/pyi/parser.py:1151-1160 | A property's collected types are the truthy return types of its getters. Any and `nothing`, being field-less pytd tuples, are false and are skipped. With none collected, the type is Any. |
| Signatures.MergeSignatures | pytype/pyi/parser.py:1201-1208 | The method computes `MergeOf`: methods and properties are merged apart, and a name that is both raises "Incompatible signatures". |
| Signatures.MergePropertiesFails | pytype/pyi/parser.py:1149-1156 | Merging properties succeeds iff every property signature parses as a getter, setter or deleter. |
| Signatures.MergePropertiesMeaning | pytype/pyi/parser.py:1149-1160 | One constant per property name, in first-appearance order, names pairwise distinct, each typed by the join of its collected types (Any when there are none). |
| Signatures.MergeDisjoint | pytype/pyi/parser.py:1205-1208 | No name is both a merged method and a property constant. |
| Signatures.MergeCovers | pytype/pyi/parser.py:1201-1208 | Every input name ends up as a method or a property constant. |
| Definitions.SplitPartition | pytype/pyi/parser.py:1084-1099 | Each definition lands in the list of its kind, and the three lists together are as long as the input. |
| Definitions.SplitDefinitions | pytype/pyi/parser.py:1084-1099 | The loop computes the three lists in order. |
| Definitions.Dedup | pytype/pyi/parser.py:826-828 | `list(set(...))`: the same elements, each once. |
| Definitions.Duplicates | pytype/pyi/parser.py:829-831 | Exactly the names counted at least twice, each once. |
| Definitions.NoDuplicatesDistinct | pytype/pyi/parser.py:826-834 | No duplicate is reported exactly when the names are pairwise distinct. |
| Definitions.ClassParents | pytype/pyi/parser.py:810-822 | The loop computes `ParentsOf`: only the last argument may be a keyword, and it must be `metaclass`. |
| Definitions.ClassHeaderDistinct | pytype/pyi/parser.py:810-834 | A class statement passes the checks iff its arguments are valid and its member names are pairwise distinct. |
| Definitions.AliasCycleAsWritten | pytype/pyi/parser.py:841-851 | Finding 4: for the class body `x = y; y = x` the alias loop as written never ends. |
| Definitions.ChaseAlias | pytype/pyi/parser.py:841-852 | The corrected loop for one alias computes `Chase`, which rejects an alias leading back to a name already passed. |
| Definitions.AliasCycleRejected | pytype/pyi/parser.py:841-852 | The corrected chase rejects the cycle `x = y; y = x` with "Illegal value for alias". |
| Definitions.ChaseAgreesOnDirect | pytype/pyi/parser.py:841-852 | Where the loop as written reaches a non-alias in one step, the corrected chase gives the same answer. |
| Definitions.CycleNeverEnds | pytype/pyi/parser.py:845-851 | Once a chain of aliases leads back to where it started, the loop as written is still running after any number of rounds. |
| Definitions.ChaseAgreesWhenFinite | pytype/pyi/parser.py:845-851 | Whenever the loop as written ends, the corrected chase ends with the same type or the same error, provided every name it treats as already passed leads on to the current definition. |
| Definitions.ChaseAgreesUnlessCycle | pytype/pyi/parser.py:843-851 | For an alias of the class, whenever the loop as written ends, after any number of rounds, the corrected chase gives the same type or the same error: the correction changes only the inputs on which the source never returns. |
| Definitions.ResolvedAliases | pytype/pyi/parser.py:841-852 | A successful resolution has one constant per alias. |
| Definitions.ResolvedAliasesMeaning | pytype/pyi/parser.py:841-852 | Resolution succeeds iff each alias's chase does. Then each alias becomes a constant of the same name, typed by its chase. |
| Definitions.ResolveAliases | pytype/pyi/parser.py:841-852 | The loop over the aliases computes `ResolvedAliases`. |
| Definitions.ClassParentsShape | pytype/pyi/parser.py:854-860 | No parent is `nothing`, and every other given parent is kept. Only `classobj` and `object` can end with no parents; any other class gets `classobj`. |
| Definitions.ClassBodyMeaning | pytype/pyi/parser.py:836-866 | A built class keeps its name and metaclass. Its constants are the body's constants, then one per alias, named after the alias. Every non-property function of the body has a method of its name. |
| Definitions.AliasTypesFromConstants | pytype/pyi/parser.py:841-852 | An alias resolves to the type of one of the class's own constants. |
| Definitions.TupleClassNameInjective | pytype/pyi/parser.py:766-768 | Different (base name, count) pairs give different `~base_k` class names. |
| Definitions.NamedTupleClassMeaning | pytype/pyi/parser.py:766-786 | The generated class has one parent, the tuple of its field types. Its constants are the fields, then the namedtuple attributes. It has two methods: a static `__new__` and `__init__`. |
| Definitions.NewAndInit | pytype/pyi/parser.py:720-754 | Merging `__new__` and `__init__` gives a static `__new__` and an `__init__` method. |
| Definitions.UnrecognizedKeywords | pytype/pyi/parser.py:877-881 | Exactly the keyword names other than `bound`, `covariant` and `contravariant`. |
| Definitions.LastBoundMeaning | pytype/pyi/parser.py:877-887 | The bound is the value of the last `bound` keyword, as `dict(named_args)` keeps it; there is none without one. |
| Definitions.TypeVarMeaning | pytype/pyi/parser.py:868-887 | A TypeVar is accepted iff it is named after itself and uses only `bound`, `covariant` and `contravariant`. It then is an unscoped TypeParameter with its constraints, or none. |
| Definitions.ImportBinds | pytype/pyi/parser.py:526-533 | An item that no later item rebinds leaves its name bound to `pkg.name`. |
| Definitions.ImportKeeps | pytype/pyi/parser.py:526-533 | A name no item binds keeps its old binding. |
| Definitions.TypingImportsOnlyBind | pytype/pyi/parser.py:531-536 | Imports from `typing` record neither aliases nor module paths. |
| Definitions.ImportAliasesQualified | pytype/pyi/parser.py:531-536 | Each alias recorded for an import refers to a dotted name inside the package. |
| Definitions.NewConstant | pytype/pyi/parser.py:462-483 | Only `0` is allowed as an integer literal and stands for `int`; `...` stands for Any; a type for itself. |
| Definitions.NewAliasOrConstant | pytype/pyi/parser.py:485-490 | `NAME = True/False` is a `bool` constant; anything else an alias. |
| Definitions.UnitMeaning | pytype/pyi/parser.py:330-365 | A unit is built iff there are no aliases among the definitions, the top-level names are distinct, the signatures merge and none is a property. It then holds the definitions' constants followed by the accumulated ones, the type parameters, the generated classes followed by the declared ones, the aliases, and the merged functions. |
| Definitions.UnitHasFunctions | pytype/pyi/parser.py:330-365 | Every module-level function ends up in the unit under its own name. |
| Definitions.GeneratedNamesDistinct | pytype/pyi/parser.py:766-785 | The classes generated for named tuples have pairwise distinct names. |
| Builder.SelectClause | pytype/pyi/parser.py:454-460 | The loop of `if_end` returns the first active clause's definitions. |
| Builder.ImportBindings | pytype/pyi/parser.py:524-546 | The `from` loop computes the new type map, module paths and aliases. |
| Builder.CheckPlainImport | pytype/pyi/parser.py:511-523 | A plain `import` fails iff it renames a module, with the "Renaming of modules not supported" message. |
| Builder.Parser.constructor | pytype/pyi/parser.py:251-275 | An empty or missing version or platform takes the default (2.7.6, linux); the version is a three-tuple; only the top scope is open; nothing is accumulated. |
| Builder.Parser.IfBegin | pytype/pyi/parser.py:438-442 | A scope is pushed under the current one. It is active iff the enclosing one is and the condition holds. An evaluation error is returned. |
| Builder.Parser.PushScope | pytype/pyi/parser.py:438-442 | The new scope's parent is the old current scope, and it can trigger iff that one is active. |
| Builder.Parser.IfElif | pytype/pyi/parser.py:444-447 | The current scope becomes active iff it can still trigger and the condition holds. |
| Builder.Parser.IfElse | pytype/pyi/parser.py:449-452 | The current scope becomes active iff no earlier clause triggered it, and cannot trigger again. |
| Builder.Parser.ApplyToCurrent | pytype/pyi/parser.py:49-64 | `apply_condition` on the current scope. |
| Builder.Parser.IfEnd | pytype/pyi/parser.py:454-460 | The parent scope becomes current again, and the first active clause's definitions are returned; nothing else changes. |
| Builder.Parser.AddAliasOrConstant | pytype/pyi/parser.py:492-507 | In an inactive scope nothing changes. Otherwise `True/False` adds a bool constant, and any other value an alias that also binds the name. |
| Builder.Parser.AddImport | pytype/pyi/parser.py:509-546 | `from pkg import ...` in an active scope binds each item, and records aliases and module paths unless `pkg` is `typing`. A plain `import` changes nothing but refuses renaming. |
| Builder.Parser.RegisterClassName | pytype/pyi/parser.py:788-792 | In an active scope a class name is bound to itself, shadowing any alias. |
| Builder.Parser.NewNamedTuple | pytype/pyi/parser.py:756-786 | The class `~base_k` is generated, `k` counting earlier classes for `base`; the TypeVar of its `__new__` is recorded; generated names stay positional. |
| Builder.NamedTupleStepMeaning | pytype/pyi/parser.py:756-786 | A built class is appended under the name the returned type refers to, and its TypeVar is the new last type parameter; nothing else changes. |
| Builder.Parser.AddClass | pytype/pyi/parser.py:794-866 | The checks come first in any scope; an inactive scope then changes nothing; an active one records the built class or returns its error. |
| Builder.Parser.AddTypeVar | pytype/pyi/parser.py:868-888 | The checks come first; an active scope then records the TypeParameter. |
| Builder.Parser.BuildTypeDeclUnit | pytype/pyi/parser.py:330-365 | The unit is built from the definitions and everything accumulated; nothing changes. |
| Builder.Parser.GeneratedClassNamesDistinct | pytype/pyi/parser.py:756-786 | The generated classes in a built unit have pairwise distinct names. |

## Left out

- The grammar driver `parser_ext.parse` and the lexer are not part of this model. The builder's methods are the entry points, with already-parsed arguments.
- `parse()` (`pytype/pyi/parser.py:276-328`) is not modelled beyond its start. This covers:
  - MD5 naming of anonymous modules, a foreign hash;
  - `_InsertTypeParameters`;
  - `pep484.ConvertTypingToNative`, whose rules live in a module that is not part of this model;
  - the final `AddNamePrefix`, which is modelled on its own.
- `new_union_type` is left out: it only builds `UnionType(types)`.
- `set_error_location`, the line and column that `ParseError` carries, `ParseError.__str__` and all logging are left out: they are presentation.
- Pickling in `StoreAst` is left out: it is disk I/O.
- `PrepareForExport` is left out: it re-parses printed text and loads builtins through collaborators that are not part of this model.
- `ExpandCompatibleBuiltins` and the pep484 compatibility tables are left out: they are not part of this model.
- Reflection is replaced by fixed tables:
  - `_FindNodeClasses` by the kind table `Pytd.Contains`;
  - `dir(cls)` handler discovery by each pass's handler sets;
  - `utils.compute_predecessors` by the closure `Visit.Closure`.
- `PrintVisitor` is modelled only in `_BuildUnion`. The `_FromTyping` name-collision test is a set parameter, and the import side effect is left out.
- Object identity and in-place pointer writes are modelled by value. This covers `node.cls = ...` and `node is class_lookup.VisitClassType(node)`:
  - a pointer is `Resolved(table, index)`;
  - the targeted relink in `ProcessAst` lends each ClassType of the tree its pointer;
  - a node "resolves to itself" when the lookup returns the same name with a lent pointer.
- The `record` argument of `ReplaceTypes` is left out. It collects replaced node names as a side effect, and no core caller uses it.
- `AdjustSelf` and the re-visit in `AdjustTypeParameters.VisitClass` are not part of this model.
- `TypeParams.AdjustTypeParameters`: each handler is a method of the class. The order in which the engine calls them is the generic engine's, and is not re-proved for this class.
- `TypeParams.SetToSeq`: the order of `tuple(set)` is unspecified in Python. The model proves only that each element appears once.
- `Builder.Parser.BuildTypeDeclUnit`: the generated classes come first, grouped by base name in order of first appearance. The source takes them from `_generated_classes.values()` (`pytype/pyi/parser.py:337-338`), a dict, so in Python 2 that order is hash order. The names in "Duplicate top-level identifier(s): …" are also in first-appearance order, where the source lists them in `collections.Counter` order (`pytype/pyi/parser.py:342-349`), also hash order. The sets of classes and of names are the same; only their order may differ when there are two or more.
- `Builder.Parser.AddClass`: the names in "Duplicate identifier(s): …" are listed in order of first appearance. The source uses the iteration order of a `collections.Counter` (`pytype/pyi/parser.py:827-831`), which is hash order in Python 2. The set of names is the same.
- `Builder.Parser.AddTypeVar`: the keywords in "Unrecognized keyword(s): …" are listed in order of first appearance. The source joins the set `set(named_args) - {...}` (`pytype/pyi/parser.py:879-881`), whose order is hash order. The set of keywords is the same.
- `Signatures.MergeSignatures`: the names in "Incompatible signatures for …" are listed in method order. The source joins the set `bad_names` (`pytype/pyi/parser.py:1205-1207`), whose order is hash order. The set of names is the same.
- `Passes.CanonicalOrdering`: lists are sorted by a string key (names, or the parameter names of a signature), not by Python's full tuple comparison of nodes. Ties keep input order.
- `Lookup.LookupLocalTypesErrors`: the success case states only that the unit keeps its name. Not every node is proved to be resolved.
- `Lookup.ResolveExternal`: the dotted-name branch is stated only through `Lookup.ResolveExternalClass` and `Lookup.ConstantOfConstant`. The other hits (functions, aliases and the `__getattr__` fallback) are computed but have no lemma of their own.
- `Lookup.ResolveExternal`: outside a constant, a dotted name of another module's constant resolves to the constant node itself, as `_ToType` with constants allowed does. The source then carries on with a Constant in type position, for example `def f(x: foo.C)` where `foo` declares `C: int`. A type position in the model cannot hold a constant, so `Lookup.LookupExternalTypes` fails there with `Malformed`.
- `Serialize.StoreAst`: a package is renamed through the corrected renamer `Serialize.RenameModule`, not through `_MaybeNewName` as written (Findings 1 and 2). A name that shares the module's prefix without a dot, such as `foo.bar_util.X`, keeps its name, and a type parameter without a scope is left alone. The code as written renames the first and raises AttributeError on the second; `Serialize.MaybeNewNameAsWritten`, `Serialize.DotBoundaryAsWritten` and `Serialize.MissingScopeAsWritten` model that behaviour.
- `Serialize.EnsureAstName`: renames through the corrected renamer, like `Serialize.StoreAst`. As written, it would also rename prefix-sharing sibling names and raise AttributeError on a type parameter without a scope.
- `Serialize.EnsureNameMeaning`: success for every non-empty stored name holds for the corrected renamer. The code as written raises AttributeError when the AST holds a type parameter without a scope.
- `Serialize.EnsureNameRoundTrip`: holds for the corrected renamer. As written, a sibling name sharing the prefix (`foo.bar_util.X` for module `foo.bar`) is renamed and is not restored by renaming back.
- `Conditions.EvalComparison`: slice comparisons normalise with the corrected `Conditions.ThreeTuple` (Finding 3). So `sys.version_info[:0] == (0,)` is true here, where the code as written gives false. The two normalisations agree on every non-empty slice (`Conditions.ThreeTupleAgrees`).
- `Definitions.ResolveAliases`: aliases are chased with the corrected `Definitions.ChaseAlias` (Finding 4). An alias cycle such as `x = y; y = x` raises "Illegal value for alias", where the code as written never returns. Wherever the code as written does return, `Definitions.ChaseAgreesUnlessCycle` proves the two agree.
- `Definitions.ResolvedAliasesMeaning`: states the corrected chase, so on an alias cycle it promises the error where the code as written does not terminate.
- `Builder.Parser.AddClass`: builds the class body through `Definitions.ResolveAliases`, so a class whose aliases form a cycle gets the "Illegal value for alias" error instead of a builder that never returns.
- `ExternalFunction` nodes are a flag on `Function`: canonical ordering does not hook them, as in the source.
- Python's `str` ordering is modelled as code-point lexicographic order on `seq<char>`; there is no Unicode handling.

## Findings

| source | as written | input that shows it | evidently intended | confidence | as-written member | corrected member |
|---|---|---|---|---|---|---|
| pytype/pytd/serialize_ast.py:75-89 | `_MaybeNewName` renames every name that starts with the old module name | old `foo.bar`, new `baz`: `foo.bar_util.X` becomes `baz_util.X` | only names local to the module (the module itself or `foo.bar.` followed by more) are renamed, as the docstring says | not executed | Serialize.DotBoundaryAsWritten | Serialize.MaybeNewName |
| pytype/pytd/serialize_ast.py:108-112 | `VisitTypeParameter` hands `node.scope` to `_MaybeNewName` even when it is None, which raises AttributeError | a unit `pkg.__init__` whose type parameters include `T` without scope, as `AdjustTypeParameters.VisitTypeDeclUnit` (`pytype/pytd/parse/visitors.py:1697-1705`) creates them, renamed to `pkg` | a type parameter without a scope is left alone | not executed | Serialize.MissingScopeAsWritten | Serialize.RenameModule |
| pytype/pyi/parser.py:1106-1108 | `_three_tuple` appends two zeros and keeps three elements, so `()` becomes `(0, 0)` | `sys.version_info[:0] == (0,)`: the left side becomes `(0, 0)` and the right side `(0, 0, 0)`, so the condition is false | every tuple is normalised to exactly three elements | not executed | Conditions.ThreeTupleEmptyAsWritten | Conditions.ThreeTuple |
| pytype/pyi/parser.py:841-853 | the `while isinstance(val, pytd.Alias)` loop of `add_class` follows aliases without remembering where it has been | the class body `x = y` and `y = x` | an alias that leads back to a name already passed is rejected as an illegal alias | not executed | Definitions.AliasCycleAsWritten | Definitions.ChaseAlias |
