/**
 * AdjustTypeParameters: the visitor that gives every class and every
 * signature its template, gives type parameters their scope and declares
 * at module level the type parameters that were used but never declared.
 *
 * The visitor keeps its bookkeeping in instance fields that its Enter,
 * Visit and Leave handlers update as the traversal goes; it is modelled as
 * a class with those fields and one method per handler.
 */
module TypeParams {
  import opened Wrappers
  import opened Pytd
  import opened Visit
  import Mro

  // ---------------------------------------------------------------------
  // Template items

  /**
   * `_GetTemplateItems`: the type parameters reached from `t` through
   * the arguments of a generic (including a tuple or a Callable) and
   * through union members, left to right.
   */
  function TemplateItems(t: Type): (r: seq<Type>)
    ensures forall x :: x in r ==> x.TypeParameter?
    ensures t.TypeParameter? ==> r == [t]
    ensures IsGeneric(t) ==> r == TemplateItemsList(t.params)
    ensures !(t.TypeParameter? || IsGeneric(t) || t.UnionType?) ==> r == []
    decreases t
  {
    match t
    case GenericType(_, ps) => TemplateItemsList(ps)
    case TupleType(_, ps) => TemplateItemsList(ps)
    case CallableType(_, ps) => TemplateItemsList(ps)
    case UnionType(ts) => TemplateItemsList(ts)
    case TypeParameter(_, _, _, _) => [t]
    case _ => []
  }

  /** The template items of each of `ts`, concatenated. */
  function TemplateItemsList(ts: seq<Type>): (r: seq<Type>)
    ensures forall x :: x in r ==> x.TypeParameter?
    ensures (forall t :: t in ts ==> t.TypeParameter?) ==> r == ts
    decreases ts
  {
    if ts == [] then [] else TemplateItems(ts[0]) + TemplateItemsList(ts[1..])
  }

  /**
   * The list of templates `EnterClass` merges: one per generic parent, in
   * the order of the parents, holding the items of its arguments.
   */
  function ParentTemplates(parents: seq<Type>): (r: seq<seq<Type>>)
    ensures |r| <= |parents|
    ensures forall k, x :: 0 <= k < |r| && x in r[k] ==> x.TypeParameter?
    decreases |parents|
  {
    if parents == [] then []
    else
      var last := parents[|parents| - 1];
      ParentTemplates(parents[..|parents| - 1])
      + (if IsGeneric(last) then [TemplateItemsList(last.params)] else [])
  }

  /**
   * When every parent is generic (a GenericType, a tuple or a Callable),
   * there is one template per parent, holding that parent's items.
   */
  lemma {:induction false} ParentTemplatesAllGeneric(parents: seq<Type>)
    requires forall k :: 0 <= k < |parents| ==> IsGeneric(parents[k])
    ensures ParentTemplates(parents) == seq(|parents|, k requires 0 <= k < |parents| => TemplateItems(parents[k]))
    decreases |parents|
  {
    if parents != [] {
      var n := |parents| - 1;
      var init := parents[..n];
      ParentTemplatesAllGeneric(init);
      var a := seq(n, k requires 0 <= k < n => TemplateItems(init[k]));
      var b := seq(n + 1, k requires 0 <= k < n + 1 => TemplateItems(parents[k]));
      assert a + [TemplateItems(parents[n])] == b by {
        forall k | 0 <= k < n ensures a[k] == b[k] {
          assert init[k] == parents[k];
        }
      }
      assert ParentTemplates(parents) == ParentTemplates(init) + [TemplateItems(parents[n])];
    }
  }

  /**
   * A tuple or Callable parent contributes the items of its arguments:
   * `class A(Tuple[T, int])` and `class A(Callable[..., T])` both have
   * the template `[T]`.
   */
  lemma TupleAndCallableParents(b: Type, t: Type, other: Type)
    requires t.TypeParameter? && (other.NamedType? || other.ClassType? || other.AnythingType? || other.NothingType?)
    ensures ParentTemplates([TupleType(b, [t, other])]) == [[t]]
    ensures ParentTemplates([CallableType(b, [other, t])]) == [[t]]
  {
    assert TemplateItemsList([t, other]) == [t] by {
      assert TemplateItemsList([other]) == [];
    }
    assert TemplateItemsList([other, t]) == [t] by {
      assert [other, t][1..] == [t];
      assert TemplateItemsList([t]) == [t];
    }
  }

  /** Template items carry no special marker: none of them may take part in a cycle. */
  function NoSingleton(t: Type): bool { false }

  /** The names of a list of template items. */
  function Names(ts: seq<Type>): (r: seq<string>)
    requires forall t :: t in ts ==> t.TypeParameter?
    ensures |r| == |ts| && forall i :: 0 <= i < |ts| ==> r[i] == ts[i].name
  {
    seq(|ts|, i requires 0 <= i < |ts| => ts[i].name)
  }

  /** `names` are pairwise distinct and none of them is in `bound`. */
  predicate FreshNames(names: seq<string>, bound: set<string>) {
    (forall i :: 0 <= i < |names| ==> names[i] !in bound)
    && forall i, j :: 0 <= i < j < |names| ==> names[i] != names[j]
  }

  /** A Python string or None is true when it is a non-empty string. */
  predicate Truthy(o: Option<string>) { o.Some? && o.value != "" }

  /** `".".join(n for n in [a, b] if n)` */
  function JoinNames(a: Option<string>, b: Option<string>): (r: string)
    ensures r == "" <==> !Truthy(a) && !Truthy(b)
    ensures Truthy(a) && Truthy(b) ==> r == a.value + "." + b.value
    ensures Truthy(a) && !Truthy(b) ==> r == a.value
    ensures !Truthy(a) && Truthy(b) ==> r == b.value
  {
    if Truthy(a) && Truthy(b) then a.value + "." + b.value
    else if Truthy(a) then a.value
    else if Truthy(b) then b.value
    else ""
  }

  /** A sequence holding each element of `s` once, in no particular order (`tuple(s)` of a Python set). */
  method SetToSeq<T(==,!new)>(s: set<T>) returns (r: seq<T>)
    ensures forall x :: x in r <==> x in s
    ensures Mro.NoDup(r)
  {
    r := [];
    var rest := s;
    while rest != {}
      invariant forall x :: x in s <==> x in r || x in rest
      invariant forall x :: x in r ==> x !in rest
      invariant Mro.NoDup(r)
      decreases rest
    {
      var x :| x in rest;
      r := r + [x];
      rest := rest - {x};
    }
  }

  // ---------------------------------------------------------------------
  // The visitor

  class AdjustTypeParameters {
    /** Names of the type parameters bound by the enclosing classes. */
    var boundTypeparams: set<string>
    /** Inside a signature: the template items collected so far. */
    var templateTypeparams: Option<set<Type>>
    var classTemplate: Option<seq<Type>>
    var className: Option<string>
    var functionName: Option<string>
    var constantName: Option<string>
    var boundByClass: set<string>
    /** Every type parameter visited, after scoping. */
    var allTypeparams: set<Type>

    constructor ()
      ensures boundTypeparams == {} && templateTypeparams.None? && classTemplate.None?
      ensures className.None? && functionName.None? && constantName.None?
      ensures boundByClass == {} && allTypeparams == {}
    {
      boundTypeparams := {};
      templateTypeparams := None;
      classTemplate := None;
      className := None;
      functionName := None;
      constantName := None;
      boundByClass := {};
      allTypeparams := {};
    }

    /**
     * A template is in force exactly while a class is entered; its
     * parameters are then bound, and by this class.
     */
    ghost predicate Valid()
      reads this
    {
      (classTemplate.Some? ==>
        (forall t :: t in classTemplate.value ==> t.TypeParameter?)
        && (forall t :: t in classTemplate.value ==> t.name in boundTypeparams)
        && (forall n :: n in boundByClass <==> exists t :: t in classTemplate.value && t.name == n))
      && (classTemplate.None? ==> boundByClass == {})
    }

    /**
     * `EnterClass`: merge the templates of the generic parents into the
     * class template and bind its parameters.  The merge fails with
     * IllegalTypeParameterOrder when the parents order the parameters
     * inconsistently; a parameter already bound (by an enclosing class, or
     * earlier in the same template) is a DuplicateTypeParameter.
     */
    method EnterClass(node: Class) returns (err: Option<PassError>)
      requires classTemplate.None?
      modifies this
      ensures templateTypeparams == old(templateTypeparams) && allTypeparams == old(allTypeparams)
      ensures functionName == old(functionName) && constantName == old(constantName)
      ensures classTemplate.None? ==>
        err == Some(IllegalTypeParameterOrder(node.name))
        && (Mro.AllNoDup(ParentTemplates(node.parents)) ==>
              forall l :: !Mro.IsMerge(l, ParentTemplates(node.parents), NoSingleton))
        && boundTypeparams == old(boundTypeparams)
      ensures classTemplate.Some? ==>
        (forall t :: t in classTemplate.value ==> t.TypeParameter? && Mro.InAny(ParentTemplates(node.parents), t))
        && (Mro.AllNoDup(ParentTemplates(node.parents)) ==>
              Mro.IsMerge(classTemplate.value, ParentTemplates(node.parents), NoSingleton))
        && (err.None? <==> FreshNames(Names(classTemplate.value), old(boundTypeparams)))
      ensures classTemplate.Some? && err.Some? ==>
        exists i :: 0 <= i < |classTemplate.value|
          && FreshNames(Names(classTemplate.value)[..i], old(boundTypeparams))
          && classTemplate.value[i].name in old(boundTypeparams) + (set j | 0 <= j < i :: classTemplate.value[j].name)
          && err == Some(DuplicateTypeParameter(classTemplate.value[i].name, node.name))
      ensures err.None? ==>
        Valid()
        && className == Some(node.name)
        && boundTypeparams == old(boundTypeparams) + boundByClass
    {
      var templates: seq<seq<Type>> := [];
      for i := 0 to |node.parents|
        invariant templates == ParentTemplates(node.parents[..i])
      {
        assert node.parents[..i + 1][..i] == node.parents[..i];
        var parent := node.parents[i];
        if IsGeneric(parent) {
          templates := templates + [TemplateItemsList(parent.params)];
        }
      }
      assert node.parents[..|node.parents|] == node.parents;
      var merged := Mro.MergeSequences(templates, NoSingleton);
      if merged.None? {
        return Some(IllegalTypeParameterOrder(node.name));
      }
      var template := merged.value;
      classTemplate := Some(template);
      ghost var names := Names(template);
      var bound := boundTypeparams;
      for i := 0 to |template|
        invariant bound == old(boundTypeparams) + set j | 0 <= j < i :: template[j].name
        invariant FreshNames(names[..i], old(boundTypeparams))
      {
        if template[i].name in bound {
          boundTypeparams := bound;
          return Some(DuplicateTypeParameter(template[i].name, node.name));
        }
        assert names[..i + 1] == names[..i] + [template[i].name];
        bound := bound + {template[i].name};
      }
      assert names[..|template|] == names;
      boundTypeparams := bound;
      className := Some(node.name);
      boundByClass := set t | t in template :: t.name;
      return None;
    }

    /** `LeaveClass`: unbind the class's parameters and forget the class. */
    method LeaveClass()
      requires Valid() && classTemplate.Some?
      modifies this
      ensures boundTypeparams == old(boundTypeparams) - old(boundByClass)
      ensures className.None? && classTemplate.None? && boundByClass == {}
      ensures templateTypeparams == old(templateTypeparams) && allTypeparams == old(allTypeparams)
      ensures functionName == old(functionName) && constantName == old(constantName)
      ensures Valid()
    {
      var template := classTemplate.value;
      var bound := boundTypeparams;
      for i := 0 to |template|
        invariant bound == old(boundTypeparams) - set j | 0 <= j < i :: template[j].name
      {
        bound := bound - {template[i].name};
      }
      boundTypeparams := bound;
      assert (set j | 0 <= j < |template| :: template[j].name) == old(boundByClass) by {
        forall n ensures n in (set j | 0 <= j < |template| :: template[j].name) <==> n in old(boundByClass) {
          if n in old(boundByClass) {
            var t :| t in template && t.name == n;
            var j :| 0 <= j < |template| && template[j] == t;
          }
        }
      }
      className := None;
      boundByClass := {};
      classTemplate := None;
    }

    /**
     * Entering and then leaving a class that raised no error gives back the
     * enclosing bindings: a class's parameters are bound exactly while it
     * is visited.
     */
    method ClassBindingsRestored(node: Class) returns (err: Option<PassError>)
      requires classTemplate.None?
      modifies this
      ensures err.None? ==> boundTypeparams == old(boundTypeparams) && classTemplate.None? && className.None?
    {
      err := EnterClass(node);
      if err.None? {
        ghost var names := Names(classTemplate.value);
        assert forall n :: n in boundByClass ==> n !in old(boundTypeparams) by {
          forall n | n in boundByClass ensures n !in old(boundTypeparams) {
            var t :| t in classTemplate.value && t.name == n;
            var i :| 0 <= i < |classTemplate.value| && classTemplate.value[i] == t;
            assert names[i] == n;
          }
        }
        LeaveClass();
      }
    }

    /**
     * `VisitClass`: the class's template is the class template, each
     * parameter scoped by the class's name.
     */
    method VisitClass(node: Class) returns (r: Class)
      requires Valid() && classTemplate.Some?
      ensures r == node.(template := r.template)
      ensures |r.template| == |classTemplate.value|
      ensures forall i :: 0 <= i < |r.template| ==>
        r.template[i] == classTemplate.value[i].(scope := Some(node.name))
    {
      var template := classTemplate.value;
      var scoped: seq<Type> := [];
      for i := 0 to |template|
        invariant |scoped| == i
        invariant forall j :: 0 <= j < i ==> scoped[j] == template[j].(scope := Some(node.name))
      {
        scoped := scoped + [template[i].(scope := Some(node.name))];
      }
      r := node.(template := scoped);
    }

    /** `EnterSignature`: start collecting the signature's own type parameters. */
    method EnterSignature()
      requires templateTypeparams.None?
      modifies this
      ensures templateTypeparams == Some({})
      ensures boundTypeparams == old(boundTypeparams) && classTemplate == old(classTemplate)
      ensures className == old(className) && boundByClass == old(boundByClass)
      ensures functionName == old(functionName) && constantName == old(constantName)
      ensures allTypeparams == old(allTypeparams)
    {
      templateTypeparams := Some({});
    }

    method LeaveSignature()
      modifies this
      ensures templateTypeparams.None?
      ensures boundTypeparams == old(boundTypeparams) && classTemplate == old(classTemplate)
      ensures className == old(className) && boundByClass == old(boundByClass)
      ensures functionName == old(functionName) && constantName == old(constantName)
      ensures allTypeparams == old(allTypeparams)
    {
      templateTypeparams := None;
    }

    /** `VisitSignature`: the signature's template is the set of items collected in it. */
    method VisitSignature(node: Signature) returns (r: Signature)
      requires templateTypeparams.Some?
      ensures r == node.(template := r.template)
      ensures forall t :: t in r.template <==> t in templateTypeparams.value
      ensures Mro.NoDup(r.template)
    {
      var template := SetToSeq(templateTypeparams.value);
      r := node.(template := template);
    }

    method EnterFunction(node: Function)
      modifies this
      ensures functionName == Some(node.name)
      ensures boundTypeparams == old(boundTypeparams) && classTemplate == old(classTemplate)
      ensures className == old(className) && boundByClass == old(boundByClass)
      ensures templateTypeparams == old(templateTypeparams) && constantName == old(constantName)
      ensures allTypeparams == old(allTypeparams)
    {
      functionName := Some(node.name);
    }

    method LeaveFunction()
      modifies this
      ensures functionName.None?
      ensures boundTypeparams == old(boundTypeparams) && classTemplate == old(classTemplate)
      ensures className == old(className) && boundByClass == old(boundByClass)
      ensures templateTypeparams == old(templateTypeparams) && constantName == old(constantName)
      ensures allTypeparams == old(allTypeparams)
    {
      functionName := None;
    }

    method EnterConstant(node: Constant)
      modifies this
      ensures constantName == Some(node.name)
      ensures boundTypeparams == old(boundTypeparams) && classTemplate == old(classTemplate)
      ensures className == old(className) && boundByClass == old(boundByClass)
      ensures templateTypeparams == old(templateTypeparams) && functionName == old(functionName)
      ensures allTypeparams == old(allTypeparams)
    {
      constantName := Some(node.name);
    }

    method LeaveConstant()
      modifies this
      ensures constantName.None?
      ensures boundTypeparams == old(boundTypeparams) && classTemplate == old(classTemplate)
      ensures className == old(className) && boundByClass == old(boundByClass)
      ensures templateTypeparams == old(templateTypeparams) && functionName == old(functionName)
      ensures allTypeparams == old(allTypeparams)
    {
      constantName := None;
    }

    /** `_GetFullName`: `name` qualified by the enclosing class, if any. */
    function FullName(name: Option<string>): string
      reads this
    {
      JoinNames(className, name)
    }

    /**
     * `_GetScope`: a parameter bound by the class is scoped by the class;
     * any other by the enclosing function, qualified by the class.
     */
    function Scope(name: string): (r: Option<string>)
      reads this
      ensures name in boundByClass ==> r == className
      ensures name !in boundByClass ==> r == Some(FullName(functionName))
    {
      if name in boundByClass then className else Some(FullName(functionName))
    }

    /**
     * `VisitTypeParameter`.  Inside a constant, only a parameter bound by
     * the enclosing class may appear (UnboundTypeParameter otherwise).  A
     * parameter gets the scope computed by `Scope` unless that is empty (a
     * module-level parameter keeps its scope); inside a signature, a
     * parameter no class binds joins the signature's template; and every
     * parameter is recorded.
     */
    method VisitTypeParameter(node: Type) returns (r: Result<Type, PassError>)
      requires node.TypeParameter?
      modifies this
      ensures r.Err? <==> Truthy(constantName) && (!Truthy(className) || node.name !in boundByClass)
      ensures r.Err? ==>
        r.error == UnboundTypeParameter(node.name, FullName(constantName))
        && allTypeparams == old(allTypeparams) && templateTypeparams == old(templateTypeparams)
      ensures r.Ok? ==>
        r.value == (if Truthy(Scope(node.name)) then node.(scope := Scope(node.name)) else node)
        && allTypeparams == old(allTypeparams) + {r.value}
        && templateTypeparams ==
             (if old(templateTypeparams).Some? && node.name !in boundTypeparams
              then Some(old(templateTypeparams).value + {r.value})
              else old(templateTypeparams))
      ensures boundTypeparams == old(boundTypeparams) && classTemplate == old(classTemplate)
      ensures className == old(className) && boundByClass == old(boundByClass)
      ensures functionName == old(functionName) && constantName == old(constantName)
    {
      if Truthy(constantName) && (!Truthy(className) || node.name !in boundByClass) {
        return Err(UnboundTypeParameter(node.name, FullName(constantName)));
      }
      var scope := Scope(node.name);
      var n := node;
      if Truthy(scope) {
        n := node.(scope := scope);
      }
      if templateTypeparams.Some? && n.name !in boundTypeparams {
        templateTypeparams := Some(templateTypeparams.value + {n});
      }
      allTypeparams := allTypeparams + {n};
      return Ok(n);
    }

    /**
     * `VisitTypeDeclUnit`: append, unscoped and in no particular order, one
     * declaration per recorded type parameter whose name the module does
     * not declare.
     */
    method VisitTypeDeclUnit(node: TypeDeclUnit) returns (r: TypeDeclUnit)
      requires forall t :: t in node.typeParams ==> t.TypeParameter?
      requires forall t :: t in allTypeparams ==> t.TypeParameter?
      ensures r == node.(typeParams := r.typeParams)
      ensures |r.typeParams| >= |node.typeParams| && r.typeParams[..|node.typeParams|] == node.typeParams
      ensures forall t :: t in r.typeParams[|node.typeParams|..] <==> t in Undeclared(node.typeParams)
      ensures Mro.NoDup(r.typeParams[|node.typeParams|..])
    {
      var declared := set t | t in node.typeParams :: t.name;
      var toAdd: set<Type> := {};
      var rest := allTypeparams;
      while rest != {}
        invariant rest <= allTypeparams
        invariant forall t :: t in toAdd <==>
          exists u :: u in allTypeparams - rest && u.name !in declared && t == u.(scope := None)
        decreases rest
      {
        var u :| u in rest;
        if u.name !in declared {
          toAdd := toAdd + {u.(scope := None)};
        }
        rest := rest - {u};
      }
      assert toAdd == Undeclared(node.typeParams);
      var added := SetToSeq(toAdd);
      r := node.(typeParams := node.typeParams + added);
      assert r.typeParams[|node.typeParams|..] == added;
    }

    /** The recorded parameters whose names `declared` lacks, with their scope removed. */
    ghost function Undeclared(declared: seq<Type>): set<Type>
      requires forall t :: t in declared ==> t.TypeParameter?
      requires forall t :: t in allTypeparams ==> t.TypeParameter?
      reads this
    {
      set u | u in allTypeparams && (forall d :: d in declared ==> d.name != u.name) :: u.(scope := None)
    }
  }
}
