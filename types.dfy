/**
 * Types as the stub builder makes them: names resolved through the
 * imported aliases, `X[...]` parameterisations with their tuple and
 * Callable special cases, and `join_types`, which combines a list of
 * types into one.
 */
module ParserTypes {
  import opened Wrappers
  import opened Names
  import opened Pytd
  import opened ParseErrors

  /** A subscript argument: a type, or `...`. */
  datatype TypeArg = EllipsisArg | Arg(t: Type)

  // ---------------------------------------------------------------------
  // The base-type tests; `astName` is the module being built

  /** `_is_tuple_base_type`: `tuple`, or the spelling of tuple this module can see. */
  predicate IsTupleBase(astName: Option<string>, t: Type) {
    t.NamedType? && (
      t.name == "tuple" ||
      (astName != Some("__builtin__") && t.name == "__builtin__.tuple") ||
      (astName == Some("typing") && t.name == "Tuple") ||
      (astName != Some("typing") && t.name == "typing.Tuple"))
  }

  /** `_is_callable_base_type`: `Callable` inside typing, `typing.Callable` elsewhere. */
  predicate IsCallableBase(astName: Option<string>, t: Type) {
    t.NamedType? && (
      (astName == Some("typing") && t.name == "Callable") ||
      (astName != Some("typing") && t.name == "typing.Callable"))
  }

  /** A type is never both a tuple base and a Callable base. */
  lemma TupleNotCallable(astName: Option<string>, t: Type)
    ensures !(IsTupleBase(astName, t) && IsCallableBase(astName, t))
  {
  }

  /** `_heterogeneous_tuple`: an empty tuple is `base[nothing]`. */
  function HeterogeneousTuple(base: Type, ps: seq<Type>): (r: Type)
    ensures ps != [] ==> r == TupleType(base, ps)
    ensures ps == [] ==> r == GenericType(base, [NothingType])
  {
    if ps != [] then TupleType(base, ps) else GenericType(base, [NothingType])
  }

  predicate IsEmptyTuple(astName: Option<string>, t: Type) {
    IsGeneric(t) && IsTupleBase(astName, t.base) && t.params == [NothingType]
  }

  predicate IsHeterogeneousTuple(astName: Option<string>, t: Type) {
    t.TupleType? || IsEmptyTuple(astName, t)
  }

  predicate IsAny(t: Type) {
    t.AnythingType? || t == NamedType("typing.Any")
  }

  /** `...` in a list of subscript arguments stands for Any. */
  function EllipsisToAny(ps: seq<TypeArg>): (r: seq<Type>)
    ensures |r| == |ps|
    ensures forall i :: 0 <= i < |ps| ==> r[i] == if ps[i].EllipsisArg? then AnythingType else ps[i].t
  {
    if ps == [] then [] else [if ps[0].EllipsisArg? then AnythingType else ps[0].t] + EllipsisToAny(ps[1..])
  }

  /** `X[T, ...]` on anything but Callable. */
  predicate IsHomogeneous(astName: Option<string>, base: Type, ps: seq<TypeArg>) {
    |ps| == 2 && ps[1].EllipsisArg? && !IsCallableBase(astName, base)
  }

  // ---------------------------------------------------------------------
  // _parameterized_type

  /**
   * `_parameterized_type(base, parameters)`.  In order: `X[T, ...]` (not
   * Callable) is `X[T]`, and `X[..., ...]` raises; a tuple base makes a
   * heterogeneous tuple; a Callable whose first argument is a
   * heterogeneous tuple makes a CallableType of the argument types
   * followed by the return type (Any when omitted), raising for more than
   * two arguments; anything else is a GenericType, and a Callable whose
   * first argument is not a list of types or Any raises.  A Callable
   * without arguments raises IndexError and any other base without
   * arguments fails the `assert`.
   */
  function ParameterizedType(astName: Option<string>, base: Type, ps: seq<TypeArg>): (r: Result<Type, Failure>)
  {
    if IsHomogeneous(astName, base, ps) then
      if ps[0].EllipsisArg? then Err(ParseError("[..., ...] not supported"))
      else Ok(GenericType(base, [ps[0].t]))
    else
      var params := EllipsisToAny(ps);
      if IsTupleBase(astName, base) then Ok(HeterogeneousTuple(base, params))
      else if IsCallableBase(astName, base) then CallableOf(astName, base, params)
      else if params == [] then Err(InternalError("AssertionError"))
      else Ok(GenericType(base, params))
  }

  /**
   * The Callable branch of `_parameterized_type`, on arguments with `...`
   * already read as Any.
   */
  function CallableOf(astName: Option<string>, base: Type, params: seq<Type>): (r: Result<Type, Failure>)
  {
    if params == [] then Err(InternalError("IndexError"))
    else if IsHeterogeneousTuple(astName, params[0]) then
      if |params| > 2 then Err(ParseError("Expected 2 parameters to Callable, got " + NatToString(|params|)))
      else
        var ret := if |params| == 2 then params[1] else AnythingType;
        var args := if IsEmptyTuple(astName, params[0]) then [] else params[0].params;
        Ok(CallableType(base, args + [ret]))
    else if !IsAny(params[0]) then
      Err(ParseError("First argument to Callable must be a list of argument types"))
    else Ok(GenericType(base, params))
  }

  /** `X[T, ...]` is the generic `X[T]` on any base but Callable, and `X[..., ...]` raises. */
  lemma HomogeneousParameters(astName: Option<string>, base: Type, t: Type)
    requires !IsCallableBase(astName, base)
    ensures ParameterizedType(astName, base, [Arg(t), EllipsisArg]) == Ok(GenericType(base, [t]))
    ensures ParameterizedType(astName, base, [EllipsisArg, EllipsisArg]) == Err(ParseError("[..., ...] not supported"))
  {
  }

  /**
   * A tuple base holds its arguments in a TupleType, `...` read as Any
   * (except in `Tuple[T, ...]`), and `Tuple[()]` is the generic tuple of
   * nothing.
   */
  lemma TupleParameters(astName: Option<string>, base: Type, ps: seq<TypeArg>)
    requires IsTupleBase(astName, base) && !IsHomogeneous(astName, base, ps)
    ensures ps != [] ==> ParameterizedType(astName, base, ps) == Ok(TupleType(base, EllipsisToAny(ps)))
    ensures ps == [] ==> ParameterizedType(astName, base, ps) == Ok(GenericType(base, [NothingType]))
  {
    TupleNotCallable(astName, base);
  }

  /** On a Callable base, `_parameterized_type` is its Callable branch. */
  lemma ParameterizedCallable(astName: Option<string>, base: Type, ps: seq<TypeArg>)
    requires IsCallableBase(astName, base)
    ensures ParameterizedType(astName, base, ps) == CallableOf(astName, base, EllipsisToAny(ps))
  {
    TupleNotCallable(astName, base);
  }

  /**
   * `Callable[[A, ...], R]`: the resulting CallableType lists the
   * argument types of the first argument and ends with the return type,
   * which is Any when only the argument list is given.  An empty tuple
   * (`Tuple[()]`, or any tuple type whose only argument is `nothing`)
   * contributes no argument types.
   */
  lemma CallableParameters(astName: Option<string>, base: Type, first: Type, ret: Option<Type>)
    requires IsCallableBase(astName, base) && IsHeterogeneousTuple(astName, first)
    ensures var ps := if ret.Some? then [Arg(first), Arg(ret.value)] else [Arg(first)];
            IsEmptyTuple(astName, first) ==>
              ParameterizedType(astName, base, ps) == Ok(CallableType(base, [ret.GetOr(AnythingType)]))
    ensures var ps := if ret.Some? then [Arg(first), Arg(ret.value)] else [Arg(first)];
            !IsEmptyTuple(astName, first) ==>
              first.TupleType?
              && ParameterizedType(astName, base, ps) == Ok(CallableType(base, first.params + [ret.GetOr(AnythingType)]))
  {
    var ps := if ret.Some? then [Arg(first), Arg(ret.value)] else [Arg(first)];
    ParameterizedCallable(astName, base, ps);
    var params := EllipsisToAny(ps);
    assert params == if ret.Some? then [first, ret.value] else [first];
    var r := ret.GetOr(AnythingType);
    if IsEmptyTuple(astName, first) {
      assert CallableOf(astName, base, params) == Ok(CallableType(base, [] + [r]));
      assert [] + [r] == [r];
    } else {
      assert CallableOf(astName, base, params) == Ok(CallableType(base, first.params + [r]));
    }
  }

  /**
   * Every result of a Callable base is either the CallableType built from
   * an argument list or a generic Callable whose first argument is Any.
   */
  lemma CallableShapes(astName: Option<string>, base: Type, ps: seq<TypeArg>)
    requires IsCallableBase(astName, base) && ParameterizedType(astName, base, ps).Ok?
    ensures var r := ParameterizedType(astName, base, ps).value;
      var params := EllipsisToAny(ps);
      (r.CallableType? && 1 <= |ps| <= 2 && IsHeterogeneousTuple(astName, params[0])) ||
      (r == GenericType(base, params) && ps != [] && IsAny(params[0]))
  {
    ParameterizedCallable(astName, base, ps);
  }

  /** A Callable with neither an argument list nor Any first raises, as does one with three or more arguments after a list. */
  lemma CallableErrors(astName: Option<string>, base: Type, ps: seq<TypeArg>)
    requires IsCallableBase(astName, base) && ps != []
    ensures var first := EllipsisToAny(ps)[0];
      !IsHeterogeneousTuple(astName, first) && !IsAny(first) ==>
        ParameterizedType(astName, base, ps) == Err(ParseError("First argument to Callable must be a list of argument types"))
    ensures IsHeterogeneousTuple(astName, EllipsisToAny(ps)[0]) && |ps| > 2 ==>
      ParameterizedType(astName, base, ps) == Err(ParseError("Expected 2 parameters to Callable, got " + NatToString(|ps|)))
  {
    ParameterizedCallable(astName, base, ps);
  }

  // ---------------------------------------------------------------------
  // new_type

  /**
   * The name a reference resolves to when no imported name is bound to
   * it: its first component goes through the module path map.
   */
  function QualifiedName(modulePathMap: map<string, string>, name: string): (r: string)
    ensures FirstIndexOf(name, '.').None? ==>
      r == if name in modulePathMap then modulePathMap[name] else name
    ensures FirstIndexOf(name, '.').Some? && name[..FirstIndexOf(name, '.').value] !in modulePathMap ==> r == name
  {
    var (m, dot, tail) := Partition(name);
    PartitionRebuilds(name);
    (if m in modulePathMap then modulePathMap[m] else m) + dot + tail
  }

  lemma PartitionRebuilds(s: string)
    ensures Partition(s).0 + Partition(s).1 + Partition(s).2 == s
    ensures FirstIndexOf(s, '.').None? ==> Partition(s) == (s, "", "")
    ensures FirstIndexOf(s, '.').Some? ==> Partition(s).0 == s[..FirstIndexOf(s, '.').value]
  {
    match FirstIndexOf(s, '.')
    case None =>
    case Some(i) => assert s == s[..i] + "." + s[i + 1..];
  }

  /**
   * `new_type(name, parameters)`: the type bound to the name, or a
   * NamedType of its qualified name, made parameterised when arguments
   * are given.  A bare `typing.Union` or `typing.Optional` raises.
   */
  function NewType(typeMap: map<string, Type>, modulePathMap: map<string, string>, astName: Option<string>,
                   name: string, params: Option<seq<TypeArg>>): (r: Result<Type, Failure>)
    ensures var base := if name in typeMap then typeMap[name] else NamedType(QualifiedName(modulePathMap, name));
      && (params.Some? ==> r == ParameterizedType(astName, base, params.value))
      && (params.None? && base.NamedType? && base.name in {"typing.Union", "typing.Optional"} ==>
            r == Err(ParseError("Missing options to " + base.name)))
      && (params.None? && !(base.NamedType? && base.name in {"typing.Union", "typing.Optional"}) ==> r == Ok(base))
  {
    var base := if name in typeMap then typeMap[name] else NamedType(QualifiedName(modulePathMap, name));
    if params.Some? then ParameterizedType(astName, base, params.value)
    else if base.NamedType? && base.name in {"typing.Union", "typing.Optional"} then
      Err(ParseError("Missing options to " + base.name))
    else Ok(base)
  }

  /** A plain name nothing was imported under stands for itself. */
  lemma NewTypeUnbound(typeMap: map<string, Type>, modulePathMap: map<string, string>, astName: Option<string>, name: string)
    requires name !in typeMap && name !in modulePathMap && FirstIndexOf(name, '.').None?
    requires name != "typing.Union" && name != "typing.Optional"
    ensures NewType(typeMap, modulePathMap, astName, name, None) == Ok(NamedType(name))
  {
  }

  /**
   * `m.X` where `m` was imported from a package `p` as `import m`-style
   * path entry resolves to `p.m.X`.
   */
  lemma NewTypeThroughModulePath(modulePathMap: map<string, string>, astName: Option<string>, m: string, tail: string, full: string)
    requires '.' !in m && m in modulePathMap && modulePathMap[m] == full
    requires full + "." + tail != "typing.Union" && full + "." + tail != "typing.Optional"
    ensures NewType(map[], modulePathMap, astName, m + "." + tail, None) == Ok(NamedType(full + "." + tail))
  {
    var name := m + "." + tail;
    FirstDotAt(m, tail);
    assert name[..|m|] == m;
  }

  lemma FirstDotAt(m: string, tail: string)
    requires '.' !in m
    ensures FirstIndexOf(m + "." + tail, '.') == Some(|m|)
  {
    var s := m + "." + tail;
    assert s[|m|] == '.';
    assert forall k :: 0 <= k < |m| ==> s[k] == m[k];
    FirstIndexOfIs(s, '.', |m|);
  }

  lemma {:induction false} FirstIndexOfIs(s: string, c: char, i: nat)
    requires i < |s| && s[i] == c && forall k :: 0 <= k < i ==> s[k] != c
    ensures FirstIndexOf(s, c) == Some(i)
  {
    if i > 0 {
      FirstIndexOfIs(s[1..], c, i - 1);
    }
  }

  // ---------------------------------------------------------------------
  // join_types

  lemma {:induction false} TypesSizeAppend(a: seq<Type>, b: seq<Type>)
    ensures TypesSize(a + b) == TypesSize(a) + TypesSize(b)
  {
    if a == [] {
      assert a + b == b;
    } else {
      assert (a + b)[0] == a[0] && (a + b)[1..] == a[1..] + b;
      TypesSizeAppend(a[1..], b);
      assert TypesSize(a + b) == TypeSize(a[0]) + TypesSize(a[1..] + b);
    }
  }

  /**
   * The members a list of types contributes to a union: unions are
   * flattened, recursively, and `nothing` is dropped.
   */
  function Leaves(ts: seq<Type>): (r: seq<Type>)
    ensures forall i :: 0 <= i < |r| ==> !r[i].UnionType? && !r[i].NothingType?
    decreases TypesSize(ts)
  {
    if ts == [] then []
    else
      assert TypesSize(ts) == TypeSize(ts[0]) + TypesSize(ts[1..]);
      var head := match ts[0]
        case UnionType(us) => Leaves(us)
        case NothingType => []
        case _ => [ts[0]];
      head + Leaves(ts[1..])
  }

  lemma {:induction false} LeavesAppend(a: seq<Type>, b: seq<Type>)
    ensures Leaves(a + b) == Leaves(a) + Leaves(b)
    decreases |a|
  {
    if a == [] {
      assert a + b == b;
    } else {
      assert (a + b)[0] == a[0] && (a + b)[1..] == a[1..] + b;
      LeavesAppend(a[1..], b);
    }
  }

  /** A list without unions or `nothing` is its own list of members. */
  lemma {:induction false} LeavesOfLeaves(ts: seq<Type>)
    requires forall i :: 0 <= i < |ts| ==> !ts[i].UnionType? && !ts[i].NothingType?
    ensures Leaves(ts) == ts
  {
    if ts != [] {
      LeavesOfLeaves(ts[1..]);
    }
  }

  /** The list with every repeated element dropped, first occurrences kept in order. */
  function Unique(xs: seq<Type>): (r: seq<Type>)
    ensures forall x :: x in r <==> x in xs
    ensures forall i, j :: 0 <= i < j < |r| ==> r[i] != r[j]
    decreases |xs|
  {
    if xs == [] then []
    else
      var u := Unique(xs[..|xs| - 1]);
      assert forall x :: x in xs <==> x in xs[..|xs| - 1] || x == xs[|xs| - 1];
      if xs[|xs| - 1] in u then u else u + [xs[|xs| - 1]]
  }

  /**
   * Order of first appearance: what a list contributes comes first and is
   * not disturbed by what follows it.
   */
  lemma {:induction false} UniquePrefix(xs: seq<Type>, ys: seq<Type>)
    ensures Unique(xs) <= Unique(xs + ys)
    decreases |ys|
  {
    if ys == [] {
      assert xs + ys == xs;
    } else {
      var zs := xs + ys[..|ys| - 1];
      UniquePrefix(xs, ys[..|ys| - 1]);
      assert (xs + ys)[..|xs + ys| - 1] == zs;
      var u := Unique(zs);
      assert Unique(xs + ys) == u || Unique(xs + ys) == u + [ys[|ys| - 1]];
      assert u <= u + [ys[|ys| - 1]];
    }
  }

  /** A list without repetitions is kept whole. */
  lemma {:induction false} UniqueOfDistinct(xs: seq<Type>)
    requires forall i, j :: 0 <= i < j < |xs| ==> xs[i] != xs[j]
    ensures Unique(xs) == xs
    decreases |xs|
  {
    if xs != [] {
      var init := xs[..|xs| - 1];
      UniqueOfDistinct(init);
      assert xs == init + [xs[|xs| - 1]];
    }
  }

  lemma LeafStep(queue: seq<Type>)
    requires queue != []
    ensures queue[0].UnionType? ==> Leaves(queue) == Leaves(queue[0].types) + Leaves(queue[1..])
    ensures queue[0].NothingType? ==> Leaves(queue) == Leaves(queue[1..])
    ensures !queue[0].UnionType? && !queue[0].NothingType? ==> Leaves(queue) == [queue[0]] + Leaves(queue[1..])
  {
  }

  /** Replacing a union at the head of the queue by its members keeps what is left to flatten. */
  lemma UnionStepKeeps(types: seq<Type>, done: seq<Type>, queue: seq<Type>)
    requires queue != [] && queue[0].UnionType? && Leaves(types) == done + Leaves(queue)
    ensures Leaves(types) == done + Leaves(queue[0].types + queue[1..])
  {
    LeafStep(queue);
    LeavesAppend(queue[0].types, queue[1..]);
  }

  /** Moving a member from the head of the queue to the flattened part keeps the whole. */
  lemma MemberStepKeeps(types: seq<Type>, done: seq<Type>, queue: seq<Type>)
    requires queue != [] && !queue[0].UnionType? && !queue[0].NothingType? && Leaves(types) == done + Leaves(queue)
    ensures Leaves(types) == (done + [queue[0]]) + Leaves(queue[1..])
  {
    LeafStep(queue);
    var rest := Leaves(queue[1..]);
    assert done + ([queue[0]] + rest) == (done + [queue[0]]) + rest;
  }

  lemma UniqueStep(done: seq<Type>, t: Type)
    ensures Unique(done + [t]) == if t in Unique(done) then Unique(done) else Unique(done) + [t]
  {
    assert (done + [t])[..|done|] == done;
  }

  /**
   * What `join_types` returns for a list of types: the distinct members;
   * a single one alone, Any if Any is among several, their union if there
   * are several, and `nothing` if there are none.
   */
  function JoinOf(ts: seq<Type>): Type {
    var u := Unique(Leaves(ts));
    if |u| == 1 then u[0]
    else if AnythingType in u then AnythingType
    else if u != [] then UnionType(u)
    else NothingType
  }

  /**
   * `join_types`: a work queue whose unions are replaced in place by
   * their members, `nothing` skipped, and each type kept at its first
   * appearance.
   */
  method JoinTypes(types: seq<Type>) returns (r: Type)
    ensures r == JoinOf(types)
  {
    var queue := types;
    var seen: set<Type> := {};
    var newTypes: seq<Type> := [];
    ghost var done: seq<Type> := [];
    while queue != []
      invariant Leaves(types) == done + Leaves(queue)
      invariant newTypes == Unique(done)
      invariant forall x :: x in seen <==> x in newTypes
      decreases TypesSize(queue)
    {
      var t := queue[0];
      assert queue == [t] + queue[1..];
      assert TypesSize(queue) == TypeSize(t) + TypesSize(queue[1..]);
      if t.UnionType? {
        UnionStepKeeps(types, done, queue);
        TypesSizeAppend(t.types, queue[1..]);
        queue := t.types + queue[1..];
      } else if t.NothingType? {
        LeafStep(queue);
        queue := queue[1..];
      } else {
        MemberStepKeeps(types, done, queue);
        UniqueStep(done, t);
        if t !in seen {
          newTypes := newTypes + [t];
          seen := seen + {t};
        }
        done := done + [t];
        queue := queue[1..];
      }
    }
    assert done == Leaves(types) by { assert done + [] == done; }
    assert (exists k :: 0 <= k < |newTypes| && newTypes[k].AnythingType?) <==> AnythingType in newTypes;
    if |newTypes| == 1 {
      r := newTypes[0];
    } else if exists k :: 0 <= k < |newTypes| && newTypes[k].AnythingType? {
      r := AnythingType;
    } else if newTypes != [] {
      r := UnionType(newTypes);
    } else {
      r := NothingType;
    }
  }

  /** Any among the types makes the whole join Any. */
  lemma JoinAnything(ts: seq<Type>)
    requires AnythingType in Leaves(ts)
    ensures JoinOf(ts) == AnythingType
  {
    var u := Unique(Leaves(ts));
    if |u| == 1 { assert AnythingType in u; }
  }

  /** Only `nothing`s and empty unions join to `nothing`. */
  lemma JoinNothing(ts: seq<Type>)
    ensures JoinOf(ts) == NothingType <==> Leaves(ts) == []
  {
    var u := Unique(Leaves(ts));
    if Leaves(ts) != [] {
      assert Leaves(ts)[0] in u;
      if |u| == 1 { assert u[0] in u; }
    }
  }

  lemma DistinctPair(u: seq<Type>, i: nat, j: nat)
    requires i < j < |u| && forall a, b :: 0 <= a < b < |u| ==> u[a] != u[b]
    ensures u[i] in u && u[j] in u && u[i] != u[j]
  {
  }

  /** A single type, after flattening and dropping repeats, is returned as itself. */
  lemma JoinSingle(ts: seq<Type>, t: Type)
    requires forall x :: x in Leaves(ts) <==> x == t
    ensures JoinOf(ts) == t
  {
    var u := Unique(Leaves(ts));
    assert t in u;
    if |u| > 1 {
      DistinctPair(u, 0, 1);
      assert false;
    }
  }

  /**
   * The join is flat: a union result holds at least two distinct members,
   * none of them a union, `nothing` or Any.
   */
  lemma JoinFlat(ts: seq<Type>)
    ensures JoinOf(ts).UnionType? ==>
      var u := JoinOf(ts).types;
      |u| >= 2 && (forall i, j :: 0 <= i < j < |u| ==> u[i] != u[j]) &&
      forall i :: 0 <= i < |u| ==> !u[i].UnionType? && !u[i].NothingType? && !u[i].AnythingType?
  {
    var u := Unique(Leaves(ts));
    assert forall i :: 0 <= i < |u| ==> u[i] in Leaves(ts);
  }

  /** Joining a joined type again changes nothing. */
  lemma JoinIdempotent(ts: seq<Type>)
    ensures JoinOf([JoinOf(ts)]) == JoinOf(ts)
  {
    var j := JoinOf(ts);
    if j.UnionType? {
      JoinFlat(ts);
      JoinOfFlatUnion(j.types);
    } else if j.NothingType? {
      assert Leaves([j]) == [];
    } else {
      JoinOfOne(j);
    }
  }

  lemma JoinOfOne(t: Type)
    requires !t.UnionType? && !t.NothingType?
    ensures JoinOf([t]) == t
  {
    assert Leaves([t]) == [t] + Leaves([]);
    assert Unique([t]) == [t] by { assert [t][..0] == []; }
  }

  lemma JoinOfFlatUnion(u: seq<Type>)
    requires |u| >= 2 && (forall i, j :: 0 <= i < j < |u| ==> u[i] != u[j])
    requires forall i :: 0 <= i < |u| ==> !u[i].UnionType? && !u[i].NothingType? && !u[i].AnythingType?
    ensures JoinOf([UnionType(u)]) == UnionType(u)
  {
    LeavesOfLeaves(u);
    UniqueOfDistinct(u);
    var l := Leaves([UnionType(u)]);
    assert l == u by {
      var one := [UnionType(u)];
      assert one[0] == UnionType(u) && one[1..] == [];
      assert l == Leaves(u) + Leaves([]);
    }
    assert AnythingType !in u by {
      forall i | 0 <= i < |u| ensures u[i] != AnythingType {
      }
    }
    assert Unique(l) == u;
  }

  /** A union among the types is the same as its members listed in its place. */
  lemma JoinFlattens(before: seq<Type>, us: seq<Type>, after: seq<Type>)
    ensures JoinOf(before + [UnionType(us)] + after) == JoinOf(before + us + after)
  {
    var rest := [UnionType(us)] + after;
    assert before + [UnionType(us)] + after == before + rest;
    assert before + us + after == before + (us + after);
    LeavesAppend(before, rest);
    LeavesAppend(before, us + after);
    LeavesAppend(us, after);
    assert rest[0] == UnionType(us) && rest[1..] == after;
    assert Leaves(rest) == Leaves(us) + Leaves(after);
  }
}
