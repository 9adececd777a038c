/**
 * The stub builder (`_Parser`): the peer object the low-level parser calls
 * back while it reads a stub.  It keeps the condition-scope stack that
 * decides which conditional definitions are in force, and accumulates the
 * module's constants, aliases, classes, type parameters, name bindings and
 * generated named-tuple classes until the TypeDeclUnit is built.
 */
module Builder {
  import opened Wrappers
  import opened Pytd
  import opened ParseErrors
  import opened Conditions
  import opened Signatures
  import opened Definitions
  import Names
  import ParserTypes
  import Mro

  /** The definitions the builder has accumulated. */
  datatype BuilderState = BuilderState(
    constants: seq<Constant>,
    aliases: seq<Alias>,
    classes: seq<Class>,
    typeParams: seq<Type>,
    typeMap: map<string, Type>,
    modulePathMap: map<string, string>,
    generatedClasses: map<string, seq<Class>>,
    generatedOrder: seq<string>)

  /** The loop of `if_end`: the definitions of the first clause whose flag is true. */
  method SelectClause<D>(clauses: seq<(bool, seq<D>)>) returns (r: seq<D>)
    ensures r == FirstActive(clauses)
  {
    var i := 0;
    while i < |clauses|
      invariant 0 <= i <= |clauses|
      invariant FirstActive(clauses[i..]) == FirstActive(clauses)
    {
      if clauses[i].0 {
        return clauses[i].1;
      }
      assert clauses[i..][1..] == clauses[i + 1..];
      i := i + 1;
    }
    return [];
  }

  /** The loop of `add_import` for `from pkg import items`. */
  method ImportBindings(typeMap: map<string, Type>, modulePathMap: map<string, string>, pkg: string, items: seq<ImportItem>)
    returns (m: map<string, Type>, mp: map<string, string>, added: seq<Alias>)
    ensures m == ImportTypeMap(typeMap, pkg, items)
    ensures mp == ImportModulePaths(modulePathMap, pkg, items)
    ensures added == ImportAliases(pkg, items)
  {
    m, mp, added := typeMap, modulePathMap, [];
    var i := 0;
    while i < |items|
      invariant 0 <= i <= |items|
      invariant m == ImportTypeMap(typeMap, pkg, items[..i])
      invariant mp == ImportModulePaths(modulePathMap, pkg, items[..i])
      invariant added == ImportAliases(pkg, items[..i])
    {
      assert items[..i + 1][..i] == items[..i];
      var it := items[i];
      if it.name != "*" {
        var t := NamedType(pkg + "." + it.name);
        m := m[NewName(it) := t];
        if pkg != "typing" {
          added := added + [Alias(NewName(it), t)];
          mp := mp[it.name := pkg + "." + it.name];
        }
      }
      i := i + 1;
    }
    assert items[..i] == items;
  }

  /** The loop of `add_import` for a plain `import`: renaming a module is refused. */
  method CheckPlainImport(items: seq<ImportItem>) returns (r: Result<(), Failure>)
    ensures r.Err? <==> HasRename(items)
    ensures r.Err? ==> r.error == ParseError("Renaming of modules not supported. Use 'from' syntax.")
  {
    var i := 0;
    while i < |items|
      invariant 0 <= i <= |items|
      invariant forall j :: 0 <= j < i ==> !items[j].Renamed?
    {
      if items[i].Renamed? {
        return Err(ParseError("Renaming of modules not supported. Use 'from' syntax."));
      }
      i := i + 1;
    }
    return Ok(());
  }

  class Parser {
    const version: seq<int>
    const platform: string
    const astName: Option<string>
    var currentCondition: ConditionScope
    /** The open condition scopes, outermost first. */
    ghost var scopes: seq<ConditionScope>
    var constants: seq<Constant>
    var aliases: seq<Alias>
    var classes: seq<Class>
    var typeParams: seq<Type>
    var typeMap: map<string, Type>
    var modulePathMap: map<string, string>
    /** The named-tuple classes by base name (a `defaultdict(list)`), and the order the base names appeared in. */
    var generatedClasses: map<string, seq<Class>>
    var generatedOrder: seq<string>

    function State(): BuilderState
      reads this`constants, this`aliases, this`classes, this`typeParams, this`typeMap, this`modulePathMap,
        this`generatedClasses, this`generatedOrder
    {
      BuilderState(constants, aliases, classes, typeParams, typeMap, modulePathMap, generatedClasses, generatedOrder)
    }

    /**
     * The scopes form a chain from the always-active top scope to the
     * current one, each scope is valid, and every generated class is named
     * after its base name and its position.  The methods that change only
     * constants, aliases, classes, type parameters or name bindings keep it
     * by their frames alone.
     */
    ghost predicate Valid()
      reads this`currentCondition, this`scopes, scopes, this`generatedClasses, this`generatedOrder
    {
      ScopesValid() && GeneratedValid()
    }

    ghost predicate ScopesValid()
      reads this`currentCondition, this`scopes, scopes
    {
      && |scopes| >= 1
      && scopes[|scopes| - 1] == currentCondition
      && scopes[0].parent == null
      && scopes[0].active
      && (forall i :: 0 < i < |scopes| ==> scopes[i].parent == scopes[i - 1])
      && (forall i, j :: 0 <= i < j < |scopes| ==> scopes[i] != scopes[j])
      && (forall i :: 0 <= i < |scopes| ==> scopes[i].Valid())
    }

    ghost predicate GeneratedValid()
      reads this`generatedClasses, this`generatedOrder
    {
      GeneratedValidOf(generatedClasses, generatedOrder)
    }

    /**
     * `_Parser(version, platform)` followed by the start of `parse(src,
     * name, ...)`: an empty or missing version or platform takes the
     * default, and only the top scope is open.
     */
    constructor (version: Option<seq<int>>, platform: Option<string>, astName: Option<string>)
      ensures Valid() && |scopes| == 1 && currentCondition.active
      ensures this.version == ThreeTuple(if version.None? || version.value == [] then DefaultVersion else version.value)
      ensures this.platform == if platform.None? || platform.value == "" then DefaultPlatform else platform.value
      ensures this.astName == astName
      ensures State() == BuilderState([], [], [], [], map[], map[], map[], [])
    {
      this.version := ThreeTuple(if version.None? || version.value == [] then DefaultVersion else version.value);
      this.platform := if platform.None? || platform.value == "" then DefaultPlatform else platform.value;
      this.astName := astName;
      var top := new ConditionScope(null);
      currentCondition := top;
      scopes := [top];
      constants, aliases, classes, typeParams := [], [], [], [];
      typeMap, modulePathMap := map[], map[];
      generatedClasses, generatedOrder := map[], [];
    }

    // -------------------------------------------------------------------
    // Conditions

    /**
     * `if_begin`: opens a scope under the current one and applies the
     * condition to it; the new scope is active only if the enclosing one
     * is and the condition holds.
     */
    method IfBegin(c: Condition) returns (r: Result<bool, Failure>)
      requires Valid()
      modifies this`currentCondition, this`scopes
      ensures ScopesValid()
      ensures |scopes| == |old(scopes)| + 1 && scopes[..|old(scopes)|] == old(scopes)
      ensures fresh(currentCondition) && currentCondition.parent == old(currentCondition)
      ensures EvalCondition(version, platform, c).Err? ==> r == Err(EvalCondition(version, platform, c).error)
      ensures EvalCondition(version, platform, c).Ok? ==>
        && r == Ok(currentCondition.active)
        && currentCondition.active == (old(currentCondition.active) && EvalCondition(version, platform, c).value)
        && currentCondition.canTrigger == (old(currentCondition.active) && !EvalCondition(version, platform, c).value)
      ensures State() == old(State())
    {
      var s := PushScope();
      var v := EvalCondition(version, platform, c);
      if v.Err? {
        return Err(v.error);
      }
      ApplyToCurrent(v.value);
      r := Ok(s.active);
    }

    /** Opens a new scope inside the current one. */
    method PushScope() returns (s: ConditionScope)
      requires ScopesValid()
      modifies this`currentCondition, this`scopes
      ensures ScopesValid() && fresh(s) && currentCondition == s && scopes == old(scopes) + [s]
      ensures s.parent == old(currentCondition) && !s.active && s.canTrigger == old(currentCondition.active)
    {
      s := new ConditionScope(currentCondition);
      currentCondition := s;
      scopes := scopes + [s];
    }

    /** `if_elif`: the current scope becomes active if it can still trigger and the condition holds. */
    method IfElif(c: Condition) returns (r: Result<bool, Failure>)
      requires Valid() && |scopes| >= 2
      modifies currentCondition
      ensures Valid()
      ensures EvalCondition(version, platform, c).Err? ==>
        r == Err(EvalCondition(version, platform, c).error) && unchanged(currentCondition)
      ensures EvalCondition(version, platform, c).Ok? ==>
        && r == Ok(currentCondition.active)
        && currentCondition.active == (old(currentCondition.canTrigger) && EvalCondition(version, platform, c).value)
        && currentCondition.canTrigger == (old(currentCondition.canTrigger) && !EvalCondition(version, platform, c).value)
    {
      var v := EvalCondition(version, platform, c);
      if v.Err? {
        return Err(v.error);
      }
      ApplyToCurrent(v.value);
      r := Ok(currentCondition.active);
    }

    /** `if_else`: the current scope becomes active if no earlier clause triggered it. */
    method IfElse() returns (r: bool)
      requires Valid() && |scopes| >= 2
      modifies currentCondition
      ensures Valid()
      ensures r == currentCondition.active && r == old(currentCondition.canTrigger)
      ensures !currentCondition.canTrigger
    {
      ApplyToCurrent(true);
      r := currentCondition.active;
    }

    /** `apply_condition` on the current (non-top) scope. */
    method ApplyToCurrent(value: bool)
      requires ScopesValid() && |scopes| >= 2
      modifies currentCondition
      ensures ScopesValid()
      ensures currentCondition.active == (old(currentCondition.canTrigger) && value)
      ensures currentCondition.canTrigger == (old(currentCondition.canTrigger) && !value)
    {
      assert currentCondition.parent == scopes[|scopes| - 2];
      currentCondition.ApplyCondition(value);
      assert forall i :: 0 <= i < |scopes| - 1 ==> scopes[i] != currentCondition;
    }

    /**
     * `if_end`: closes the current scope, returning to its parent, and
     * hands back the definitions of the first clause that was active.
     */
    method IfEnd<D>(clauses: seq<(bool, seq<D>)>) returns (r: seq<D>)
      requires Valid() && |scopes| >= 2
      modifies this`currentCondition, this`scopes
      ensures Valid()
      ensures scopes == old(scopes)[..|old(scopes)| - 1] && currentCondition == old(currentCondition.parent)
      ensures r == FirstActive(clauses)
      ensures State() == old(State())
    {
      var p := currentCondition.parent;
      assert p == scopes[|scopes| - 2];
      currentCondition := p;
      scopes := scopes[..|scopes| - 1];
      r := SelectClause(clauses);
    }

    // -------------------------------------------------------------------
    // Module-level definitions

    /**
     * `add_alias_or_constant`: in an active scope, `NAME = True/False` adds
     * a bool constant, and any other value an alias that also binds the name.
     */
    method AddAliasOrConstant(name: string, value: Type)
      requires Valid()
      modifies this`constants, this`typeMap, this`aliases
      ensures !old(currentCondition.active) ==> State() == old(State())
      ensures old(currentCondition.active) && NewAliasOrConstant(name, value).DConstant? ==>
        State() == old(State()).(constants := old(constants) + [NewAliasOrConstant(name, value).c])
      ensures old(currentCondition.active) && NewAliasOrConstant(name, value).DAlias? ==>
        State() == old(State()).(typeMap := old(typeMap)[name := value], aliases := old(aliases) + [Alias(name, value)])
    {
      if !currentCondition.active {
        return;
      }
      var d := NewAliasOrConstant(name, value);
      if d.DConstant? {
        constants := constants + [d.c];
      } else {
        typeMap := typeMap[name := value];
        aliases := aliases + [d.a];
      }
    }

    /**
     * `add_import`: `from pkg import ...` in an active scope binds each
     * item (and records an alias and a module path unless `pkg` is
     * `typing`); a plain `import` changes nothing but refuses renaming.
     */
    method AddImport(fromPackage: Option<string>, items: seq<ImportItem>) returns (r: Result<(), Failure>)
      requires Valid()
      modifies this`typeMap, this`modulePathMap, this`aliases
      ensures fromPackage.Some? && fromPackage.value != "" ==>
        && r == Ok(())
        && (!old(currentCondition.active) ==> State() == old(State()))
        && (old(currentCondition.active) ==> State() == old(State()).(
              typeMap := ImportTypeMap(old(typeMap), fromPackage.value, items),
              modulePathMap := ImportModulePaths(old(modulePathMap), fromPackage.value, items),
              aliases := old(aliases) + ImportAliases(fromPackage.value, items)))
      ensures !(fromPackage.Some? && fromPackage.value != "") ==>
        && (r.Err? <==> HasRename(items))
        && (r.Err? ==> r.error == ParseError("Renaming of modules not supported. Use 'from' syntax."))
        && State() == old(State())
    {
      if fromPackage.Some? && fromPackage.value != "" {
        if !currentCondition.active {
          return Ok(());
        }
        var m, mp, added := ImportBindings(typeMap, modulePathMap, fromPackage.value, items);
        typeMap, modulePathMap, aliases := m, mp, aliases + added;
        return Ok(());
      } else {
        r := CheckPlainImport(items);
      }
    }

    /** `register_class_name`: in an active scope a class name shadows any alias of that name. */
    method RegisterClassName(className: string)
      requires Valid()
      modifies this`typeMap
      ensures !old(currentCondition.active) ==> State() == old(State())
      ensures old(currentCondition.active) ==>
        State() == old(State()).(typeMap := old(typeMap)[className := NamedType(className)])
    {
      if currentCondition.active {
        typeMap := typeMap[className := NamedType(className)];
      }
    }

    /**
     * `new_named_tuple`: generates the class `~<base>_<k>`, where `k`
     * counts the classes generated for `base` before, whatever the
     * condition; the TypeVar of its `__new__` is recorded first.
     */
    method NewNamedTuple(baseName: string, fields: seq<(string, Type)>) returns (r: Result<Type, Failure>)
      requires Valid()
      modifies this`typeParams, this`generatedClasses, this`generatedOrder
      ensures GeneratedValid()
      ensures (r, State()) == NamedTupleStep(old(State()), baseName, NamedTupleClassOf(NextTupleName(old(State()), baseName), fields))
    {
      var st;
      r, st := NewNamedTupleOn(State(), baseName, fields);
      typeParams, generatedClasses, generatedOrder := st.typeParams, st.generatedClasses, st.generatedOrder;
    }

    /**
     * `add_class`: the parent arguments and the duplicate check come
     * first, in any scope; in an active scope the class is then built
     * and recorded.
     */
    method AddClass(className: string, parentArgs: seq<ParentArg>, defs: seq<Definition>) returns (r: Result<(), Failure>)
      requires Valid()
      modifies this`classes
      ensures ClassHeader(parentArgs, defs).Err? ==> r == Err(ClassHeader(parentArgs, defs).error) && State() == old(State())
      ensures ClassHeader(parentArgs, defs).Ok? && !old(currentCondition.active) ==> r == Ok(()) && State() == old(State())
      ensures ClassHeader(parentArgs, defs).Ok? && old(currentCondition.active) ==>
        var h := ClassHeader(parentArgs, defs).value;
        var b := ClassBody(className, h.0, h.1, defs);
        && (b.Err? ==> r == Err(b.error) && State() == old(State()))
        && (b.Ok? ==> r == Ok(()) && State() == old(State()).(classes := old(classes) + [b.value]))
    {
      var h := CheckClassHeader(parentArgs, defs);
      if h.Err? {
        return Err(h.error);
      }
      if !currentCondition.active {
        return Ok(());
      }
      var cls := BuildClassBody(className, h.value.0, h.value.1, defs);
      if cls.Err? {
        return Err(cls.error);
      }
      classes := classes + [cls.value];
      return Ok(());
    }

    /** `add_type_var`: the checks come first, in any scope; an active scope then records the TypeParameter. */
    method AddTypeVar(name: string, nameArg: string, constraints: Option<seq<Type>>, namedArgs: seq<(string, Type)>)
      returns (r: Result<(), Failure>)
      requires Valid()
      modifies this`typeParams
      ensures var t := TypeVarOf(name, nameArg, constraints, namedArgs);
        && (t.Err? ==> r == Err(t.error) && State() == old(State()))
        && (t.Ok? && !old(currentCondition.active) ==> r == Ok(()) && State() == old(State()))
        && (t.Ok? && old(currentCondition.active) ==> r == Ok(()) && State() == old(State()).(typeParams := old(typeParams) + [t.value]))
    {
      var t := TypeVarOf(name, nameArg, constraints, namedArgs);
      if t.Err? {
        return Err(t.error);
      }
      if currentCondition.active {
        typeParams := typeParams + [t.value];
      }
      return Ok(());
    }

    /**
     * `_build_type_decl_unit`: the module's unit from the top-level
     * definitions and everything accumulated; nothing changes.
     */
    method BuildTypeDeclUnit(defs: seq<Definition>) returns (r: Result<TypeDeclUnit, Failure>)
      requires Valid()
      ensures r == UnitOf(defs, constants, typeParams, GeneratedClasses(generatedOrder, generatedClasses), classes, aliases)
    {
      var cs, functions, as_ := SplitDefinitions(defs);
      if as_ != [] {
        return Err(InternalError("AssertionError"));
      }
      var allConstants := cs + constants;
      var allClasses := GeneratedClasses(generatedOrder, generatedClasses) + classes;
      var dups := Duplicates(TopLevelNames(functions, allConstants, typeParams, allClasses, aliases));
      if dups != [] {
        return Err(ParseError("Duplicate top-level identifier(s): " + Names.Join(dups, ", ")));
      }
      var merged := MergeSignatures(functions);
      if merged.Err? {
        return Err(merged.error);
      }
      var (fs, properties) := merged.value;
      if properties != [] {
        return Err(ParseError("Module-level functions with property decorators: " + Names.Join(ConstantNames(properties), ", ")));
      }
      return Ok(TypeDeclUnit("", allConstants, typeParams, allClasses, fs, aliases));
    }

    /** The generated classes in a built unit have pairwise distinct names. */
    lemma GeneratedClassNamesDistinct()
      requires Valid()
      ensures Mro.NoDup(ClassNames(GeneratedClasses(generatedOrder, generatedClasses)))
    {
      GeneratedNamesDistinct(generatedOrder, generatedClasses);
    }
  }

  /** The name `new_named_tuple` gives the next class generated for `baseName`. */
  function NextTupleName(st: BuilderState, baseName: string): string {
    TupleClassName(baseName, if baseName in st.generatedClasses then |st.generatedClasses[baseName]| else 0)
  }

  /**
   * `new_named_tuple` on the builder's definitions, given the outcome `cls`
   * of building the class: the base name's entry is created (taking the
   * next place in the order) and the TypeVar recorded even when the class
   * cannot be built.
   */
  function NamedTupleStep(st: BuilderState, baseName: string, cls: Result<Class, Failure>): (Result<Type, Failure>, BuilderState) {
    var prev := if baseName in st.generatedClasses then st.generatedClasses[baseName] else [];
    var className := NextTupleName(st, baseName);
    var order := if baseName in st.generatedClasses then st.generatedOrder else st.generatedOrder + [baseName];
    var st1 := st.(typeParams := st.typeParams + [TupleTypeVar(className)],
                   generatedClasses := st.generatedClasses[baseName := prev],
                   generatedOrder := order);
    if cls.Err? then (Err(cls.error), st1)
    else (Ok(NamedType(className)), st1.(generatedClasses := st.generatedClasses[baseName := prev + [cls.value]]))
  }

  /** What `Parser.GeneratedValid` asks of the generated classes. */
  ghost predicate GeneratedValidOf(generated: map<string, seq<Class>>, order: seq<string>) {
    && (forall x :: x in generated <==> x in order)
    && Mro.NoDup(order)
    && WellNamed(generated)
  }

  /** A class named `NextTupleName` keeps the generated classes keyed by the order, and named by position. */
  lemma NamedTupleStepValid(st: BuilderState, baseName: string, cls: Result<Class, Failure>)
    requires GeneratedValidOf(st.generatedClasses, st.generatedOrder)
    requires cls.Ok? ==> cls.value.name == NextTupleName(st, baseName)
    ensures GeneratedValidOf(NamedTupleStep(st, baseName, cls).1.generatedClasses, NamedTupleStep(st, baseName, cls).1.generatedOrder)
  {
    var g := st.generatedClasses;
    var prev := if baseName in g then g[baseName] else [];
    if baseName !in g {
      WellNamedAddEmpty(g, baseName);
    }
    var g1 := g[baseName := prev];
    if cls.Ok? {
      WellNamedAppend(g1, baseName, cls.value);
      assert g1[baseName := g1[baseName] + [cls.value]] == g[baseName := prev + [cls.value]];
    }
  }

  /**
   * A built class is appended to its base name's list under the name the
   * returned type refers to, and the TypeVar bound to that name is the new
   * last type parameter; nothing else changes.
   */
  lemma NamedTupleStepMeaning(st: BuilderState, baseName: string, cls: Result<Class, Failure>)
    ensures var (r, st2) := NamedTupleStep(st, baseName, cls);
      var n := if baseName in st.generatedClasses then |st.generatedClasses[baseName]| else 0;
      && baseName in st2.generatedClasses
      && st2.typeParams == st.typeParams + [TupleTypeVar(TupleClassName(baseName, n))]
      && (baseName in st.generatedClasses ==> st2.generatedOrder == st.generatedOrder)
      && (baseName !in st.generatedClasses ==> st2.generatedOrder == st.generatedOrder + [baseName])
      && (forall b :: b in st.generatedClasses && b != baseName ==> b in st2.generatedClasses && st2.generatedClasses[b] == st.generatedClasses[b])
      && (cls.Err? ==> r == Err(cls.error) && |st2.generatedClasses[baseName]| == n)
      && (cls.Ok? ==>
            && r == Ok(NamedType(TupleClassName(baseName, n)))
            && |st2.generatedClasses[baseName]| == n + 1
            && st2.generatedClasses[baseName][n] == cls.value)
      && st2.(typeParams := st.typeParams, generatedClasses := st.generatedClasses, generatedOrder := st.generatedOrder) == st
  {
  }

  /** `new_named_tuple`'s bookkeeping computed on values. */
  method NamedTupleOn(st: BuilderState, baseName: string, cls: Result<Class, Failure>) returns (r: Result<Type, Failure>, st2: BuilderState)
    ensures (r, st2) == NamedTupleStep(st, baseName, cls)
  {
    var prev, order := [], st.generatedOrder + [baseName];
    if baseName in st.generatedClasses {
      prev, order := st.generatedClasses[baseName], st.generatedOrder;
    }
    var className := TupleClassName(baseName, |prev|);
    st2 := st.(typeParams := st.typeParams + [TupleTypeVar(className)],
               generatedClasses := st.generatedClasses[baseName := prev], generatedOrder := order);
    if cls.Err? {
      return Err(cls.error), st2;
    }
    st2 := st2.(generatedClasses := st.generatedClasses[baseName := prev + [cls.value]]);
    return Ok(NamedType(className)), st2;
  }

  /** `new_named_tuple` on values: builds the class under the next name, then records it. */
  method NewNamedTupleOn(st: BuilderState, baseName: string, fields: seq<(string, Type)>) returns (r: Result<Type, Failure>, st2: BuilderState)
    ensures (r, st2) == NamedTupleStep(st, baseName, NamedTupleClassOf(NextTupleName(st, baseName), fields))
    ensures GeneratedValidOf(st.generatedClasses, st.generatedOrder) ==> GeneratedValidOf(st2.generatedClasses, st2.generatedOrder)
  {
    var cls := BuildNamedTupleClass(NextTupleName(st, baseName), fields);
    r, st2 := NamedTupleOn(st, baseName, cls);
    if GeneratedValidOf(st.generatedClasses, st.generatedOrder) {
      NamedTupleStepValid(st, baseName, cls);
    }
  }

  /** The body of `new_named_tuple` that builds the class. */
  method BuildNamedTupleClass(className: string, fields: seq<(string, Type)>) returns (r: Result<Class, Failure>)
    ensures r == NamedTupleClassOf(className, fields)
    ensures r.Ok? ==> r.value.name == className
  {
    var parent := ParserTypes.HeterogeneousTuple(NamedType("tuple"), FieldTypes(fields));
    var newSig := NewFunction([], "__new__", NewParams(className, fields), TupleTypeVar(className), []);
    if newSig.Err? {
      return Err(newSig.error);
    }
    var initSig := NewFunction([], "__init__", InitParams, NamedType("NoneType"), []);
    if initSig.Err? {
      return Err(initSig.error);
    }
    var methods := MergeMethodSignatures([newSig.value, initSig.value]);
    if methods.Err? {
      return Err(methods.error);
    }
    return Ok(Class(className, None, [parent], methods.value, NamedTupleConstants(fields), []));
  }

  /** The checks at the head of `add_class`: the parent arguments, then duplicate member names. */
  method CheckClassHeader(parentArgs: seq<ParentArg>, defs: seq<Definition>) returns (r: Result<(seq<Type>, Option<Type>), Failure>)
    ensures r == ClassHeader(parentArgs, defs)
  {
    var pm := ClassParents(parentArgs);
    if pm.Err? {
      return Err(pm.error);
    }
    var dups := Duplicates(ClassMemberNames(defs));
    if dups != [] {
      return Err(ParseError("Duplicate identifier(s): " + Names.Join(dups, ", ")));
    }
    return pm;
  }

  /** The rest of `add_class` in an active scope: aliases resolved, signatures merged, parents settled. */
  method BuildClassBody(className: string, parents: seq<Type>, metaclass: Option<Type>, defs: seq<Definition>)
    returns (r: Result<Class, Failure>)
    ensures r == ClassBody(className, parents, metaclass, defs)
  {
    var cs, methods, as_ := SplitDefinitions(defs);
    var resolved := ResolveAliases(DictOf(Members(cs, as_)), as_);
    if resolved.Err? {
      return Err(resolved.error);
    }
    var merged := MergeSignatures(methods);
    if merged.Err? {
      return Err(merged.error);
    }
    var (fs, properties) := merged.value;
    return Ok(Class(className, metaclass, EffectiveParents(className, parents), fs, cs + resolved.value + properties, []));
  }
}
