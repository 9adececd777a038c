/**
 * Function definitions in a stub: `new_function` builds one signature
 * with its name and decorator, and the `_merge_*` functions group the
 * signatures of a module or class into functions (overloads) and
 * property constants.
 */
module Signatures {
  import opened Wrappers
  import opened Names
  import opened Pytd
  import opened ParseErrors
  import opened Params
  import opened ParserTypes

  /** `_NameAndSig`: one `def`, before overloads are merged. */
  datatype NameAndSig = NameAndSig(name: string, signature: Signature, decorator: Option<string>, externalCode: bool)

  // ---------------------------------------------------------------------
  // Decorators

  /** `_is_property_decorator`: dotted names are accepted only for properties. */
  predicate IsPropertyDecorator(d: string) {
    d == "property" || '.' in d
  }

  predicate Ignored(d: string) { d == "overload" || d == "abstractmethod" }

  predicate Supported(d: string) { d == "staticmethod" || d == "classmethod" || IsPropertyDecorator(d) }

  /**
   * `_keep_decorator`: `overload` and `abstractmethod` are dropped,
   * `staticmethod`, `classmethod` and property decorators kept, and any
   * other decorator raises.
   */
  function KeepDecorator(d: string): (r: Result<bool, Failure>)
    ensures r == Ok(false) <==> Ignored(d)
    ensures r == Ok(true) <==> !Ignored(d) && Supported(d)
    ensures r.Err? <==> !Ignored(d) && !Supported(d)
    ensures r.Err? ==> r.error == ParseError("Decorator " + d + " not supported")
  {
    if Ignored(d) then Ok(false)
    else if Supported(d) then Ok(true)
    else Err(ParseError("Decorator " + d + " not supported"))
  }

  /** `[d for d in decorators if _keep_decorator(d)]` */
  function KeptDecorators(ds: seq<string>): (r: Result<seq<string>, Failure>)
    ensures r.Ok? <==> forall i :: 0 <= i < |ds| ==> Ignored(ds[i]) || Supported(ds[i])
    ensures r.Ok? ==> forall d :: d in r.value <==> d in ds && !Ignored(d)
    ensures r.Err? ==> exists i :: 0 <= i < |ds| && !Ignored(ds[i]) && !Supported(ds[i]) &&
                                   r.error == ParseError("Decorator " + ds[i] + " not supported")
  {
    if ds == [] then Ok([])
    else
      var keep :- KeepDecorator(ds[0]);
      var rest :- KeptDecorators(ds[1..]);
      assert forall d :: d in ds <==> d == ds[0] || d in ds[1..];
      Ok(if keep then [ds[0]] + rest else rest)
  }

  // ---------------------------------------------------------------------
  // _Mutator: `x := T` in a function body

  datatype Mutation = Mutation(name: string, newType: Type)

  /** A statement of a function body: `raise T`, or `x := T`. */
  datatype BodyStmt = RaiseStmt(exc: Type) | MutateStmt(m: Mutation)

  /** `_Mutator.VisitParameter` */
  function MutateParam(m: Mutation, p: Parameter): (r: Result<Parameter, Failure>)
    ensures p.name != m.name ==> r == Ok(p)
    ensures p.name == m.name && p.optional ==>
      r == Err(ParseError("Argument " + p.name + " can not be both mutable and optional"))
    ensures p.name == m.name && !p.optional ==> r == Ok(p.(mutated := Some(m.newType)))
  {
    if p.name != m.name then Ok(p)
    else if p.optional then Err(ParseError("Argument " + p.name + " can not be both mutable and optional"))
    else Ok(p.(mutated := Some(m.newType)))
  }

  /** The mutator visits the parameters in order; the first optional one it matches raises. */
  function MutateParams(m: Mutation, ps: seq<Parameter>): (r: Result<seq<Parameter>, Failure>)
    ensures r.Ok? <==> forall i :: 0 <= i < |ps| ==> !(ps[i].name == m.name && ps[i].optional)
    ensures r.Ok? ==> (|r.value| == |ps| &&
      forall i :: 0 <= i < |ps| ==> r.value[i] == if ps[i].name == m.name then ps[i].(mutated := Some(m.newType)) else ps[i])
  {
    if ps == [] then Ok([])
    else
      var p :- MutateParam(m, ps[0]);
      var rest :- MutateParams(m, ps[1..]);
      Ok([p] + rest)
  }

  function MutateOpt(m: Mutation, o: Option<Parameter>): (r: Result<Option<Parameter>, Failure>)
    ensures o.None? ==> r == Ok(None)
    ensures o.Some? ==> r == (var p :- MutateParam(m, o.value); Ok(Some(p)))
  {
    if o.None? then Ok(None)
    else var p :- MutateParam(m, o.value); Ok(Some(p))
  }

  /** Some parameter of the signature, `*args` and `**kwargs` included, has the name. */
  predicate Mentions(sig: Signature, name: string) {
    (exists i :: 0 <= i < |sig.params| && sig.params[i].name == name) ||
    (sig.starargs.Some? && sig.starargs.value.name == name) ||
    (sig.starstarargs.Some? && sig.starstarargs.value.name == name)
  }

  /**
   * `signature.Visit(_Mutator(name, new_type))` followed by the
   * `successful` check: every parameter of that name records the new
   * type; a matching optional parameter raises, and so does a signature
   * without such a parameter.
   */
  function ApplyMutator(sig: Signature, m: Mutation): Result<Signature, Failure> {
    var ps :- MutateParams(m, sig.params);
    var sa :- MutateOpt(m, sig.starargs);
    var ssa :- MutateOpt(m, sig.starstarargs);
    if !Mentions(sig, m.name) then Err(ParseError("No parameter named " + m.name))
    else Ok(sig.(params := ps, starargs := sa, starstarargs := ssa))
  }

  /**
   * A mutation succeeds exactly when some parameter has the name and none
   * of those is optional, so never on `*args` or `**kwargs` (always
   * optional).  It then records the new type on exactly the parameters of
   * that name and leaves the rest of the signature alone.
   */
  lemma ApplyMutatorMeaning(sig: Signature, m: Mutation)
    ensures ApplyMutator(sig, m).Ok? <==>
      Mentions(sig, m.name) &&
      (forall i :: 0 <= i < |sig.params| ==> !(sig.params[i].name == m.name && sig.params[i].optional)) &&
      (sig.starargs.Some? ==> !(sig.starargs.value.name == m.name && sig.starargs.value.optional)) &&
      (sig.starstarargs.Some? ==> !(sig.starstarargs.value.name == m.name && sig.starstarargs.value.optional))
  {
  }

  /** The mutated signature differs from the original only in the matching parameters. */
  lemma ApplyMutatorChanges(sig: Signature, m: Mutation)
    requires ApplyMutator(sig, m).Ok?
    ensures var s := ApplyMutator(sig, m).value;
      && |s.params| == |sig.params|
      && (forall i :: 0 <= i < |sig.params| ==>
            s.params[i] == if sig.params[i].name == m.name then sig.params[i].(mutated := Some(m.newType)) else sig.params[i])
      && s.returnType == sig.returnType && s.exceptions == sig.exceptions && s.template == sig.template
      && (sig.starargs.Some? && sig.starargs.value.optional ==> s.starargs == sig.starargs)
      && (sig.starstarargs.Some? && sig.starstarargs.value.optional ==> s.starstarargs == sig.starstarargs)
  {
  }

  function ApplyMutators(sig: Signature, ms: seq<Mutation>): Result<Signature, Failure>
    decreases |ms|
  {
    if ms == [] then Ok(sig)
    else
      var s :- ApplyMutator(sig, ms[0]);
      ApplyMutators(s, ms[1..])
  }

  /** The `raise` statements of a body, in order. */
  function Exceptions(body: seq<BodyStmt>): (r: seq<Type>)
    ensures forall t :: t in r <==> RaiseStmt(t) in body
  {
    if body == [] then []
    else
      var init := body[..|body| - 1];
      var last := body[|body| - 1];
      assert forall s :: s in body <==> s in init || s == last;
      Exceptions(init) + (if last.RaiseStmt? then [last.exc] else [])
  }

  /** The `x := T` statements of a body, in order. */
  function Mutations(body: seq<BodyStmt>): (r: seq<Mutation>)
    ensures forall m :: m in r <==> MutateStmt(m) in body
  {
    if body == [] then []
    else
      var init := body[..|body| - 1];
      var last := body[|body| - 1];
      assert forall s :: s in body <==> s in init || s == last;
      Mutations(init) + (if last.MutateStmt? then [last.m] else [])
  }

  lemma BodyStep(body: seq<BodyStmt>, i: nat)
    requires i < |body|
    ensures Exceptions(body[..i + 1]) == Exceptions(body[..i]) + (if body[i].RaiseStmt? then [body[i].exc] else [])
    ensures Mutations(body[..i + 1]) == Mutations(body[..i]) + (if body[i].MutateStmt? then [body[i].m] else [])
  {
    assert body[..i + 1][..i] == body[..i];
  }

  // ---------------------------------------------------------------------
  // new_function and new_external_function

  function ReturnTypeFor(name: string, returnType: Type): Type {
    if name == "__init__" && returnType.AnythingType? then NamedType("NoneType") else returnType
  }

  /**
   * What `new_function` computes: the validated parameters, the return
   * type (an `__init__` declared to return Any returns NoneType), the
   * raised exceptions, the mutations applied in order, and the single
   * kept decorator.
   */
  function NewFunctionOf(decorators: seq<string>, name: string, paramList: seq<ParamSpec>, returnType: Type,
                         body: seq<BodyStmt>): Result<NameAndSig, Failure>
  {
    var params :- ValidateOf(paramList);
    var sig0 := Signature(params.required, params.starargs, params.starstarargs, ReturnTypeFor(name, returnType),
                          Exceptions(body), []);
    var sig :- ApplyMutators(sig0, Mutations(body));
    var kept :- KeptDecorators(decorators);
    if |kept| > 1 then Err(ParseError("Too many decorators for " + name))
    else Ok(NameAndSig(name, sig, if kept == [] then None else Some(kept[0]), false))
  }

  /** The `for stmt in body` loop of `new_function`: exceptions and mutators apart. */
  method SplitBody(body: seq<BodyStmt>) returns (exceptions: seq<Type>, mutators: seq<Mutation>)
    ensures exceptions == Exceptions(body) && mutators == Mutations(body)
  {
    exceptions, mutators := [], [];
    var i := 0;
    while i < |body|
      invariant 0 <= i <= |body|
      invariant exceptions == Exceptions(body[..i]) && mutators == Mutations(body[..i])
    {
      BodyStep(body, i);
      if body[i].RaiseStmt? {
        exceptions := exceptions + [body[i].exc];
      } else {
        mutators := mutators + [body[i].m];
      }
      i := i + 1;
    }
    assert body[..|body|] == body;
  }

  /** The `for mutator in mutators` loop of `new_function`. */
  method RunMutators(sig0: Signature, mutators: seq<Mutation>) returns (r: Result<Signature, Failure>)
    ensures r == ApplyMutators(sig0, mutators)
  {
    var sig := sig0;
    var k := 0;
    while k < |mutators|
      invariant 0 <= k <= |mutators|
      invariant ApplyMutators(sig0, mutators) == ApplyMutators(sig, mutators[k..])
    {
      var next := ApplyMutator(sig, mutators[k]);
      if next.Err? {
        return Err(next.error);
      }
      assert mutators[k..][1..] == mutators[k + 1..];
      sig := next.value;
      k := k + 1;
    }
    r := Ok(sig);
  }

  /** `new_function` */
  method NewFunction(decorators: seq<string>, name: string, paramList: seq<ParamSpec>, returnType: Type,
                     body: seq<BodyStmt>) returns (r: Result<NameAndSig, Failure>)
    ensures r == NewFunctionOf(decorators, name, paramList, returnType, body)
  {
    var ret := if name == "__init__" && returnType.AnythingType? then NamedType("NoneType") else returnType;
    var vp := ValidateParams(paramList);
    if vp.Err? {
      return Err(vp.error);
    }
    var params := vp.value;
    var exceptions, mutators := SplitBody(body);
    var sig := RunMutators(Signature(params.required, params.starargs, params.starstarargs, ret, exceptions, []), mutators);
    if sig.Err? {
      return Err(sig.error);
    }
    var kept := KeptDecorators(decorators);
    if kept.Err? {
      return Err(kept.error);
    }
    if |kept.value| > 1 {
      return Err(ParseError("Too many decorators for " + name));
    }
    var decorator := if kept.value == [] then None else Some(kept.value[0]);
    r := Ok(NameAndSig(name, sig.value, decorator, false));
  }

  /**
   * A function built by `new_function` keeps its name, is not external
   * code, carries the body's exceptions, and its decorator is one of the
   * supported decorators written on it.
   */
  lemma NewFunctionMeaning(decorators: seq<string>, name: string, paramList: seq<ParamSpec>, returnType: Type,
                           body: seq<BodyStmt>)
    requires NewFunctionOf(decorators, name, paramList, returnType, body).Ok?
    ensures var f := NewFunctionOf(decorators, name, paramList, returnType, body).value;
      && f.name == name && !f.externalCode
      && f.signature.returnType == ReturnTypeFor(name, returnType)
      && f.signature.exceptions == Exceptions(body)
      && f.signature.template == []
      && (f.decorator.Some? ==> f.decorator.value in decorators && Supported(f.decorator.value) && !Ignored(f.decorator.value))
      && (f.decorator.None? ==> forall d :: d in decorators ==> Ignored(d))
  {
    var params := ValidateOf(paramList).value;
    var sig0 := Signature(params.required, params.starargs, params.starstarargs, ReturnTypeFor(name, returnType),
                          Exceptions(body), []);
    MutatorsKeep(sig0, Mutations(body));
    var kept := KeptDecorators(decorators).value;
    if kept != [] {
      assert kept[0] in kept;
    }
  }

  /** Mutations change parameters only. */
  lemma {:induction false} MutatorsKeep(sig: Signature, ms: seq<Mutation>)
    requires ApplyMutators(sig, ms).Ok?
    ensures var s := ApplyMutators(sig, ms).value;
      s.returnType == sig.returnType && s.exceptions == sig.exceptions && s.template == sig.template
    decreases |ms|
  {
    if ms != [] {
      ApplyMutatorChanges(sig, ms[0]);
      MutatorsKeep(ApplyMutator(sig, ms[0]).value, ms[1..]);
    }
  }

  /** `__init__` declared to return Any returns None; any other return type is kept. */
  lemma InitReturnsNone(name: string, returnType: Type)
    ensures name == "__init__" && returnType == AnythingType ==> ReturnTypeFor(name, returnType) == NamedType("NoneType")
    ensures !(name == "__init__" && returnType == AnythingType) ==> ReturnTypeFor(name, returnType) == returnType
  {
  }

  /** `new_external_function`: a PYTHONCODE placeholder whose signature is ignored. */
  function NewExternalFunction(name: string): (r: NameAndSig)
    ensures r.name == name && r.externalCode && r.decorator.None?
    ensures r.signature == Signature([], None, None, NothingType, [], [])
  {
    NameAndSig(name, Signature([], None, None, NothingType, [], []), None, true)
  }

  // ---------------------------------------------------------------------
  // _split_methods_and_properties

  predicate IsPropertySig(s: NameAndSig) {
    s.decorator.Some? && s.decorator.value != "" && IsPropertyDecorator(s.decorator.value)
  }

  function MethodSigs(sigs: seq<NameAndSig>): seq<NameAndSig> {
    if sigs == [] then []
    else
      var last := sigs[|sigs| - 1];
      MethodSigs(sigs[..|sigs| - 1]) + (if IsPropertySig(last) then [] else [last])
  }

  function PropertySigs(sigs: seq<NameAndSig>): seq<NameAndSig> {
    if sigs == [] then []
    else
      var last := sigs[|sigs| - 1];
      PropertySigs(sigs[..|sigs| - 1]) + (if IsPropertySig(last) then [last] else [])
  }

  /** A signature goes to the methods or to the properties as its decorator says. */
  lemma {:induction false} SplitMembers(sigs: seq<NameAndSig>)
    ensures forall s :: s in MethodSigs(sigs) <==> s in sigs && !IsPropertySig(s)
    ensures forall s :: s in PropertySigs(sigs) <==> s in sigs && IsPropertySig(s)
  {
    if sigs != [] {
      var init := sigs[..|sigs| - 1];
      var last := sigs[|sigs| - 1];
      SplitMembers(init);
      assert forall s :: s in sigs <==> s in init || s == last;
    }
  }

  /** The split loses and invents nothing: the two lists together have every signature once. */
  lemma {:induction false} SplitPartition(sigs: seq<NameAndSig>)
    ensures |MethodSigs(sigs)| + |PropertySigs(sigs)| == |sigs|
    ensures multiset(MethodSigs(sigs)) + multiset(PropertySigs(sigs)) == multiset(sigs)
  {
    if sigs != [] {
      var init := sigs[..|sigs| - 1];
      var last := sigs[|sigs| - 1];
      SplitPartition(init);
      assert sigs == init + [last];
      assert multiset(sigs) == multiset(init) + multiset{last};
      if IsPropertySig(last) {
        assert PropertySigs(sigs) == PropertySigs(init) + [last];
        assert MethodSigs(sigs) == MethodSigs(init);
      } else {
        assert MethodSigs(sigs) == MethodSigs(init) + [last];
        assert PropertySigs(sigs) == PropertySigs(init);
      }
    }
  }

  /** `_split_methods_and_properties`: property-decorated signatures apart, in order. */
  method SplitMethodsAndProperties(sigs: seq<NameAndSig>) returns (methods: seq<NameAndSig>, properties: seq<NameAndSig>)
    ensures methods == MethodSigs(sigs) && properties == PropertySigs(sigs)
  {
    methods, properties := [], [];
    var i := 0;
    while i < |sigs|
      invariant 0 <= i <= |sigs|
      invariant methods == MethodSigs(sigs[..i]) && properties == PropertySigs(sigs[..i])
    {
      assert sigs[..i + 1][..i] == sigs[..i];
      if IsPropertySig(sigs[i]) {
        properties := properties + [sigs[i]];
      } else {
        methods := methods + [sigs[i]];
      }
      i := i + 1;
    }
    assert sigs[..|sigs|] == sigs;
  }

  // ---------------------------------------------------------------------
  // Names, in order of first appearance

  /** The distinct names among the first `n` signatures, in order of first appearance. */
  function NamesUpTo(sigs: seq<NameAndSig>, n: nat): seq<string>
    requires n <= |sigs|
  {
    if n == 0 then []
    else
      var u := NamesUpTo(sigs, n - 1);
      if sigs[n - 1].name in u then u else u + [sigs[n - 1].name]
  }

  /** Where the name first appears among the first `n` signatures. */
  function FirstIndex(sigs: seq<NameAndSig>, name: string, n: nat): (r: Option<nat>)
    requires n <= |sigs|
    ensures r.Some? ==> r.value < n && sigs[r.value].name == name
  {
    if n == 0 then None
    else
      var f := FirstIndex(sigs, name, n - 1);
      if f.Some? then f else if sigs[n - 1].name == name then Some(n - 1) else None
  }

  /** The signatures of that name among the first `n`, in declaration order. */
  function SigsNamed(sigs: seq<NameAndSig>, name: string, n: nat): seq<Signature>
    requires n <= |sigs|
  {
    if n == 0 then []
    else SigsNamed(sigs, name, n - 1) + (if sigs[n - 1].name == name then [sigs[n - 1].signature] else [])
  }

  /** A name is listed exactly when it appears. */
  lemma {:induction false} NamesListed(sigs: seq<NameAndSig>, n: nat, x: string)
    requires n <= |sigs|
    ensures x in NamesUpTo(sigs, n) <==> FirstIndex(sigs, x, n).Some?
  {
    if n > 0 {
      NamesListed(sigs, n - 1, x);
    }
  }

  /** No name is listed twice. */
  lemma {:induction false} NamesDistinct(sigs: seq<NameAndSig>, n: nat)
    requires n <= |sigs|
    ensures forall a, b :: 0 <= a < b < |NamesUpTo(sigs, n)| ==> NamesUpTo(sigs, n)[a] != NamesUpTo(sigs, n)[b]
  {
    if n > 0 {
      NamesDistinct(sigs, n - 1);
    }
  }

  /** The first appearance comes no later than any appearance. */
  lemma {:induction false} FirstIndexEarliest(sigs: seq<NameAndSig>, x: string, n: nat, i: nat)
    requires i < n <= |sigs| && sigs[i].name == x
    ensures FirstIndex(sigs, x, n).Some? && FirstIndex(sigs, x, n).value <= i
  {
    if i < n - 1 {
      FirstIndexEarliest(sigs, x, n - 1, i);
    }
  }

  lemma {:induction false} FirstIndexBelow(sigs: seq<NameAndSig>, name: string, i: nat, j: nat, f: nat)
    requires i <= j <= |sigs| && f < i
    requires FirstIndex(sigs, name, j) == Some(f)
    ensures FirstIndex(sigs, name, i) == Some(f)
  {
    if j > i {
      assert FirstIndex(sigs, name, j - 1) == Some(f);
      FirstIndexBelow(sigs, name, i, j - 1, f);
    }
  }

  lemma {:induction false} SigsNamedNone(sigs: seq<NameAndSig>, x: string, n: nat)
    requires n <= |sigs| && FirstIndex(sigs, x, n).None?
    ensures SigsNamed(sigs, x, n) == []
  {
    if n > 0 {
      SigsNamedNone(sigs, x, n - 1);
    }
  }

  /** Every signature of a name is among that name's signatures. */
  lemma {:induction false} SigsNamedHas(sigs: seq<NameAndSig>, name: string, n: nat, i: nat)
    requires i < n <= |sigs| && sigs[i].name == name
    ensures sigs[i].signature in SigsNamed(sigs, name, n)
  {
    if i < n - 1 {
      SigsNamedHas(sigs, name, n - 1, i);
    }
  }

  // ---------------------------------------------------------------------
  // _merge_method_signatures

  /**
   * The signature at `i` clashes with the first of its name: the
   * decorators disagree, or either is external code (two PYTHONCODEs, or
   * PYTHONCODE mixed with a stub definition).
   */
  predicate Clash(sigs: seq<NameAndSig>, i: nat)
    requires i < |sigs|
  {
    var f := FirstIndex(sigs, sigs[i].name, i);
    f.Some? && (sigs[i].decorator != sigs[f.value].decorator || sigs[i].externalCode || sigs[f.value].externalCode)
  }

  function ClashMessage(sigs: seq<NameAndSig>, i: nat): string
    requires i < |sigs| && Clash(sigs, i)
  {
    var f := FirstIndex(sigs, sigs[i].name, i).value;
    var name := sigs[i].name;
    if sigs[i].decorator != sigs[f].decorator then "Overloaded signatures for " + name + " disagree on decorators"
    else if sigs[i].externalCode && sigs[f].externalCode then "Multiple PYTHONCODEs for " + name
    else "Mixed pytd and PYTHONCODEs for " + name
  }

  function FirstClash(sigs: seq<NameAndSig>, i: nat): (r: nat)
    requires i <= |sigs|
    ensures i <= r <= |sigs|
    ensures r < |sigs| ==> Clash(sigs, r)
    ensures forall j :: i <= j < r ==> !Clash(sigs, j)
    decreases |sigs| - i
  {
    if i == |sigs| then |sigs| else if Clash(sigs, i) then i else FirstClash(sigs, i + 1)
  }

  /** No signature among the first `n` clashes. */
  predicate NoClashUpTo(sigs: seq<NameAndSig>, n: nat)
    requires n <= |sigs|
  {
    n == 0 || (NoClashUpTo(sigs, n - 1) && !Clash(sigs, n - 1))
  }

  lemma {:induction false} NoClashBelow(sigs: seq<NameAndSig>, n: nat)
    requires n <= |sigs| && NoClashUpTo(sigs, n)
    ensures forall j :: 0 <= j < n ==> !Clash(sigs, j)
  {
    if n > 0 {
      NoClashBelow(sigs, n - 1);
    }
  }

  lemma FirstClashAt(sigs: seq<NameAndSig>, i: nat)
    requires i < |sigs| && Clash(sigs, i) && NoClashUpTo(sigs, i)
    ensures FirstClash(sigs, 0) == i
  {
    NoClashBelow(sigs, i);
  }

  lemma FirstClashNone(sigs: seq<NameAndSig>)
    requires NoClashUpTo(sigs, |sigs|)
    ensures FirstClash(sigs, 0) == |sigs|
  {
    NoClashBelow(sigs, |sigs|);
  }

  /** The kind of a merged function: `__new__` is always static. */
  function KindFor(name: string, decorator: Option<string>): (k: FunctionKind)
    ensures name == "__new__" ==> k == StaticMethod
    ensures name != "__new__" ==>
      (k == StaticMethod <==> decorator == Some("staticmethod")) && (k == ClassMethod <==> decorator == Some("classmethod"))
  {
    if name == "__new__" || decorator == Some("staticmethod") then StaticMethod
    else if decorator == Some("classmethod") then ClassMethod
    else Method
  }

  /** The function for one name, from the first signature's decorator and external flag. */
  function MakeMethod(sigs: seq<NameAndSig>, name: string): Function
    requires name in NamesUpTo(sigs, |sigs|)
  {
    NamesListed(sigs, |sigs|, name);
    var f := sigs[FirstIndex(sigs, name, |sigs|).value];
    var kind := KindFor(name, f.decorator);
    if f.externalCode then ExternalFunction(name, [], kind)
    else Function(name, SigsNamed(sigs, name, |sigs|), kind)
  }

  /** What `_merge_method_signatures` computes. */
  function MergeMethodsOf(sigs: seq<NameAndSig>): Result<seq<Function>, Failure> {
    var c := FirstClash(sigs, 0);
    if c < |sigs| then Err(ParseError(ClashMessage(sigs, c)))
    else
      var names := NamesUpTo(sigs, |sigs|);
      Ok(seq(|names|, k requires 0 <= k < |names| => MakeMethod(sigs, names[k])))
  }

  /**
   * The ordered dictionaries of `_merge_method_signatures` after the
   * first `i` signatures: the names in order of first appearance, each
   * name's signatures so far, and its first signature's decorator and
   * external flag.
   */
  ghost predicate Grouped(sigs: seq<NameAndSig>, i: nat, order: seq<string>, nameToSigs: map<string, seq<Signature>>,
                          nameToDecorator: map<string, Option<string>>, nameToExternal: map<string, bool>)
    requires i <= |sigs|
  {
    && order == NamesUpTo(sigs, i)
    && (forall x :: (x in nameToSigs <==> x in order) && (x in nameToDecorator <==> x in order) &&
                    (x in nameToExternal <==> x in order))
    && (forall x :: x in order ==> GroupOf(sigs, i, x, nameToSigs[x], nameToDecorator[x], nameToExternal[x]))
  }

  /** One name's entries after the first `i` signatures. */
  ghost predicate GroupOf(sigs: seq<NameAndSig>, i: nat, x: string, ss: seq<Signature>, decorator: Option<string>,
                          external: bool)
    requires i <= |sigs|
  {
    var f := FirstIndex(sigs, x, i);
    f.Some? && ss == SigsNamed(sigs, x, i) && decorator == sigs[f.value].decorator && external == sigs[f.value].externalCode
  }

  /** Another name's signature leaves a group as it was. */
  lemma GroupOfOther(sigs: seq<NameAndSig>, i: nat, x: string, ss: seq<Signature>, decorator: Option<string>, external: bool)
    requires i < |sigs| && GroupOf(sigs, i, x, ss, decorator, external) && x != sigs[i].name
    ensures GroupOf(sigs, i + 1, x, ss, decorator, external)
  {
    assert FirstIndex(sigs, x, i + 1) == FirstIndex(sigs, x, i);
  }

  /** A signature of the name joins its group. */
  lemma GroupOfSame(sigs: seq<NameAndSig>, i: nat, ss: seq<Signature>, decorator: Option<string>, external: bool)
    requires i < |sigs| && GroupOf(sigs, i, sigs[i].name, ss, decorator, external)
    ensures GroupOf(sigs, i + 1, sigs[i].name, ss + [sigs[i].signature], decorator, external)
  {
    assert FirstIndex(sigs, sigs[i].name, i + 1) == FirstIndex(sigs, sigs[i].name, i);
  }

  /** The first signature of a name opens its group. */
  lemma GroupOfFirst(sigs: seq<NameAndSig>, i: nat)
    requires i < |sigs| && FirstIndex(sigs, sigs[i].name, i).None?
    ensures GroupOf(sigs, i + 1, sigs[i].name, [sigs[i].signature], sigs[i].decorator, sigs[i].externalCode)
  {
    SigsNamedNone(sigs, sigs[i].name, i);
  }

  /** A name seen for the first time opens a group; it cannot clash. */
  lemma GroupNew(sigs: seq<NameAndSig>, i: nat, order: seq<string>, nameToSigs: map<string, seq<Signature>>,
                 nameToDecorator: map<string, Option<string>>, nameToExternal: map<string, bool>)
    requires i < |sigs| && Grouped(sigs, i, order, nameToSigs, nameToDecorator, nameToExternal)
    requires sigs[i].name !in order
    ensures !Clash(sigs, i)
    ensures Grouped(sigs, i + 1, order + [sigs[i].name], nameToSigs[sigs[i].name := [sigs[i].signature]],
                    nameToDecorator[sigs[i].name := sigs[i].decorator], nameToExternal[sigs[i].name := sigs[i].externalCode])
  {
    var n := sigs[i].name;
    NamesListed(sigs, i, n);
    GroupOfFirst(sigs, i);
    assert NamesUpTo(sigs, i + 1) == order + [n];
    var s := sigs[i];
    var ss, ds, es := nameToSigs[n := [s.signature]], nameToDecorator[n := s.decorator], nameToExternal[n := s.externalCode];
    forall x | x in order + [n]
      ensures GroupOf(sigs, i + 1, x, ss[x], ds[x], es[x])
    {
      if x != n {
        GroupOfOther(sigs, i, x, nameToSigs[x], nameToDecorator[x], nameToExternal[x]);
      }
    }
    assert forall x :: (x in ss <==> x in order + [n]) && (x in ds <==> x in order + [n]) && (x in es <==> x in order + [n]);
  }

  /**
   * A name seen before clashes exactly when its decorator differs from the
   * group's or either is external; otherwise its signature joins the group.
   */
  lemma GroupOld(sigs: seq<NameAndSig>, i: nat, order: seq<string>, nameToSigs: map<string, seq<Signature>>,
                 nameToDecorator: map<string, Option<string>>, nameToExternal: map<string, bool>)
    requires i < |sigs| && Grouped(sigs, i, order, nameToSigs, nameToDecorator, nameToExternal)
    requires sigs[i].name in order
    ensures Clash(sigs, i) <==>
      nameToDecorator[sigs[i].name] != sigs[i].decorator || sigs[i].externalCode || nameToExternal[sigs[i].name]
    ensures Clash(sigs, i) ==> (ClashMessage(sigs, i) ==
      if nameToDecorator[sigs[i].name] != sigs[i].decorator then
        "Overloaded signatures for " + sigs[i].name + " disagree on decorators"
      else if sigs[i].externalCode && nameToExternal[sigs[i].name] then "Multiple PYTHONCODEs for " + sigs[i].name
      else "Mixed pytd and PYTHONCODEs for " + sigs[i].name)
    ensures Grouped(sigs, i + 1, order, nameToSigs[sigs[i].name := nameToSigs[sigs[i].name] + [sigs[i].signature]],
                    nameToDecorator, nameToExternal)
  {
    var n := sigs[i].name;
    assert GroupOf(sigs, i, n, nameToSigs[n], nameToDecorator[n], nameToExternal[n]);
    assert NamesUpTo(sigs, i + 1) == order;
    var ss := nameToSigs[n := nameToSigs[n] + [sigs[i].signature]];
    forall x | x in order
      ensures GroupOf(sigs, i + 1, x, ss[x], nameToDecorator[x], nameToExternal[x])
    {
      if x == n {
        GroupOfSame(sigs, i, nameToSigs[n], nameToDecorator[n], nameToExternal[n]);
      } else {
        GroupOfOther(sigs, i, x, nameToSigs[x], nameToDecorator[x], nameToExternal[x]);
      }
    }
    assert forall x :: x in ss <==> x in order;
  }

  /** The groups after the last signature give the merged functions. */
  lemma GroupMakes(sigs: seq<NameAndSig>, order: seq<string>, nameToSigs: map<string, seq<Signature>>,
                   nameToDecorator: map<string, Option<string>>, nameToExternal: map<string, bool>, name: string)
    requires Grouped(sigs, |sigs|, order, nameToSigs, nameToDecorator, nameToExternal)
    requires name in order
    ensures MakeMethod(sigs, name) ==
      var kind := KindFor(name, nameToDecorator[name]);
      if nameToExternal[name] then ExternalFunction(name, [], kind) else Function(name, nameToSigs[name], kind)
  {
    assert GroupOf(sigs, |sigs|, name, nameToSigs[name], nameToDecorator[name], nameToExternal[name]);
  }

  /**
   * `_merge_method_signatures`: signatures grouped by name in ordered
   * dictionaries, the first signature of a name fixing its decorator and
   * whether it is external code.
   */
  method MergeMethodSignatures(sigs: seq<NameAndSig>) returns (r: Result<seq<Function>, Failure>)
    ensures r == MergeMethodsOf(sigs)
  {
    var order: seq<string> := [];
    var nameToSigs: map<string, seq<Signature>> := map[];
    var nameToDecorator: map<string, Option<string>> := map[];
    var nameToExternal: map<string, bool> := map[];
    var i := 0;
    while i < |sigs|
      invariant 0 <= i <= |sigs|
      invariant NoClashUpTo(sigs, i)
      invariant Grouped(sigs, i, order, nameToSigs, nameToDecorator, nameToExternal)
    {
      var s := sigs[i];
      if s.name !in nameToSigs {
        GroupNew(sigs, i, order, nameToSigs, nameToDecorator, nameToExternal);
        order := order + [s.name];
        nameToSigs := nameToSigs[s.name := [s.signature]];
        nameToDecorator := nameToDecorator[s.name := s.decorator];
        nameToExternal := nameToExternal[s.name := s.externalCode];
      } else {
        GroupOld(sigs, i, order, nameToSigs, nameToDecorator, nameToExternal);
        if nameToDecorator[s.name] != s.decorator {
          FirstClashAt(sigs, i);
          return Err(ParseError("Overloaded signatures for " + s.name + " disagree on decorators"));
        }
        if s.externalCode && nameToExternal[s.name] {
          FirstClashAt(sigs, i);
          return Err(ParseError("Multiple PYTHONCODEs for " + s.name));
        } else if s.externalCode != nameToExternal[s.name] {
          FirstClashAt(sigs, i);
          return Err(ParseError("Mixed pytd and PYTHONCODEs for " + s.name));
        }
        nameToSigs := nameToSigs[s.name := nameToSigs[s.name] + [s.signature]];
      }
      assert !Clash(sigs, i);
      i := i + 1;
    }
    FirstClashNone(sigs);
    var methods := MakeMethods(sigs, order, nameToSigs, nameToDecorator, nameToExternal);
    assert methods == seq(|order|, k requires 0 <= k < |order| => MakeMethod(sigs, order[k]));
    r := Ok(methods);
  }

  /** The list comprehension ending `_merge_method_signatures`: one function per group. */
  method MakeMethods(sigs: seq<NameAndSig>, order: seq<string>, nameToSigs: map<string, seq<Signature>>,
                     nameToDecorator: map<string, Option<string>>, nameToExternal: map<string, bool>)
    returns (methods: seq<Function>)
    requires Grouped(sigs, |sigs|, order, nameToSigs, nameToDecorator, nameToExternal)
    ensures |methods| == |order| && forall j :: 0 <= j < |order| ==> methods[j] == MakeMethod(sigs, order[j])
  {
    methods := [];
    var k := 0;
    while k < |order|
      invariant 0 <= k <= |order|
      invariant |methods| == k
      invariant forall j :: 0 <= j < k ==> methods[j] == MakeMethod(sigs, order[j])
    {
      var name := order[k];
      GroupMakes(sigs, order, nameToSigs, nameToDecorator, nameToExternal, name);
      var kind := KindFor(name, nameToDecorator[name]);
      var f := if nameToExternal[name] then ExternalFunction(name, [], kind) else Function(name, nameToSigs[name], kind);
      methods := methods + [f];
      k := k + 1;
    }
  }

  /**
   * Signatures of one name are consistent: they agree on the decorator,
   * and external code stands alone.
   */
  predicate Consistent(sigs: seq<NameAndSig>) {
    forall i, j :: 0 <= i < j < |sigs| && sigs[i].name == sigs[j].name ==>
      sigs[i].decorator == sigs[j].decorator && !sigs[i].externalCode && !sigs[j].externalCode
  }

  /** Merging fails exactly when some name's signatures are inconsistent. */
  lemma MergeMethodsFails(sigs: seq<NameAndSig>)
    ensures MergeMethodsOf(sigs).Ok? <==> Consistent(sigs)
  {
    if FirstClash(sigs, 0) == |sigs| {
      forall i, j | 0 <= i < j < |sigs| && sigs[i].name == sigs[j].name
        ensures sigs[i].decorator == sigs[j].decorator && !sigs[i].externalCode && !sigs[j].externalCode
      {
        FirstIndexEarliest(sigs, sigs[j].name, j, i);
        var f := FirstIndex(sigs, sigs[j].name, j).value;
        assert !Clash(sigs, j);
        if f < i {
          FirstIndexBelow(sigs, sigs[i].name, i, j, f);
          assert !Clash(sigs, i);
        }
      }
    } else {
      var c := FirstClash(sigs, 0);
      var f := FirstIndex(sigs, sigs[c].name, c).value;
      assert f < c && sigs[f].name == sigs[c].name;
    }
  }

  /**
   * A successful merge gives one function per distinct name, in order of
   * first appearance; a stub-defined one holds the signatures of that
   * name in declaration order; `__new__` is static.
   */
  lemma MergeMethodsMeaning(sigs: seq<NameAndSig>)
    requires MergeMethodsOf(sigs).Ok?
    ensures var fs := MergeMethodsOf(sigs).value;
      var names := NamesUpTo(sigs, |sigs|);
      && |fs| == |names|
      && (forall k :: 0 <= k < |fs| ==> fs[k].name == names[k])
      && (forall a, b :: 0 <= a < b < |fs| ==> fs[a].name != fs[b].name)
      && (forall k :: 0 <= k < |fs| && fs[k].Function? ==> fs[k].signatures == SigsNamed(sigs, names[k], |sigs|))
      && (forall k :: 0 <= k < |fs| && fs[k].name == "__new__" ==> fs[k].kind == StaticMethod)
      && (forall i :: 0 <= i < |sigs| ==> sigs[i].name in names)
  {
    var names := NamesUpTo(sigs, |sigs|);
    NamesDistinct(sigs, |sigs|);
    forall i | 0 <= i < |sigs|
      ensures sigs[i].name in names
    {
      FirstIndexEarliest(sigs, sigs[i].name, |sigs|, i);
      NamesListed(sigs, |sigs|, sigs[i].name);
    }
  }

  // ---------------------------------------------------------------------
  // _parse_signature_as_property and _merge_property_signatures

  function DecoratorText(d: Option<string>): string {
    if d.Some? then d.value else "None"
  }

  /**
   * `_parse_signature_as_property`: a getter (`@property` or
   * `@name.getter`, one parameter) gives its return type; a setter (two
   * parameters) or deleter (one) gives nothing; anything else raises.
   */
  function ParseSignatureAsProperty(s: NameAndSig): (r: Result<Option<Type>, Failure>)
    ensures r.Ok? && r.value.Some? ==> r.value == Some(s.signature.returnType)
    ensures r.Ok? <==>
      ((s.decorator == Some("property") || s.decorator == Some(s.name + ".getter")) && |s.signature.params| == 1) ||
      (s.decorator == Some(s.name + ".setter") && |s.signature.params| == 2) ||
      (s.decorator == Some(s.name + ".deleter") && |s.signature.params| == 1)
    ensures r.Err? ==> r.error == ParseError("Unhandled decorator: " + DecoratorText(s.decorator))
  {
    var n := |s.signature.params|;
    if (s.decorator == Some("property") || s.decorator == Some(s.name + ".getter")) && n == 1 then
      Ok(Some(s.signature.returnType))
    else if (s.decorator == Some(s.name + ".setter") && n == 2) || (s.decorator == Some(s.name + ".deleter") && n == 1) then
      Ok(None)
    else Err(ParseError("Unhandled decorator: " + DecoratorText(s.decorator)))
  }

  /**
   * Python truth of a type: pytd nodes are tuples of their fields, so the
   * field-less Any and `nothing` are false.
   */
  predicate Truthy(t: Type) {
    !t.AnythingType? && !t.NothingType?
  }

  /** The property type a getter contributes, if any. */
  function Contributed(s: NameAndSig): seq<Type> {
    var p := ParseSignatureAsProperty(s);
    if p.Ok? && p.value.Some? && Truthy(p.value.value) then [p.value.value] else []
  }

  /** The property types given for the name among the first `n` signatures, in order. */
  function PropertyTypes(sigs: seq<NameAndSig>, name: string, n: nat): seq<Type>
    requires n <= |sigs|
  {
    if n == 0 then []
    else PropertyTypes(sigs, name, n - 1) + (if sigs[n - 1].name == name then Contributed(sigs[n - 1]) else [])
  }

  function FirstUnparsable(sigs: seq<NameAndSig>, i: nat): (r: nat)
    requires i <= |sigs|
    ensures i <= r <= |sigs|
    ensures r < |sigs| ==> ParseSignatureAsProperty(sigs[r]).Err?
    ensures forall j :: i <= j < r ==> ParseSignatureAsProperty(sigs[j]).Ok?
    decreases |sigs| - i
  {
    if i == |sigs| then |sigs| else if ParseSignatureAsProperty(sigs[i]).Err? then i else FirstUnparsable(sigs, i + 1)
  }

  /** The type of a property: the join of its getters' types, or Any when none is given. */
  function PropertyType(ts: seq<Type>): Type {
    if ts == [] then AnythingType else JoinOf(ts)
  }

  /** What `_merge_property_signatures` computes: one constant per property name. */
  function MergePropertiesOf(sigs: seq<NameAndSig>): Result<seq<Constant>, Failure> {
    var e := FirstUnparsable(sigs, 0);
    if e < |sigs| then Err(ParseSignatureAsProperty(sigs[e]).error)
    else
      var names := NamesUpTo(sigs, |sigs|);
      Ok(seq(|names|, k requires 0 <= k < |names| => Constant(names[k], PropertyType(PropertyTypes(sigs, names[k], |sigs|)))))
  }

  /** Every one of the first `n` signatures reads as a property accessor. */
  predicate ParsedUpTo(sigs: seq<NameAndSig>, n: nat)
    requires n <= |sigs|
  {
    n == 0 || (ParsedUpTo(sigs, n - 1) && ParseSignatureAsProperty(sigs[n - 1]).Ok?)
  }

  lemma {:induction false} ParsedBelow(sigs: seq<NameAndSig>, n: nat)
    requires n <= |sigs| && ParsedUpTo(sigs, n)
    ensures forall j :: 0 <= j < n ==> ParseSignatureAsProperty(sigs[j]).Ok?
  {
    if n > 0 {
      ParsedBelow(sigs, n - 1);
    }
  }

  lemma {:induction false} PropertyTypesNone(sigs: seq<NameAndSig>, x: string, n: nat)
    requires n <= |sigs| && FirstIndex(sigs, x, n).None?
    ensures PropertyTypes(sigs, x, n) == []
  {
    if n > 0 {
      PropertyTypesNone(sigs, x, n - 1);
    }
  }

  /** The ordered dictionary of `_merge_property_signatures` after the first `i` signatures. */
  ghost predicate Collected(sigs: seq<NameAndSig>, i: nat, order: seq<string>, types: map<string, seq<Type>>)
    requires i <= |sigs|
  {
    && order == NamesUpTo(sigs, i)
    && (forall x :: x in types <==> x in order)
    && (forall x :: x in order ==> types[x] == PropertyTypes(sigs, x, i))
  }

  lemma CollectNew(sigs: seq<NameAndSig>, i: nat, order: seq<string>, types: map<string, seq<Type>>)
    requires i < |sigs| && Collected(sigs, i, order, types) && sigs[i].name !in order
    ensures Collected(sigs, i + 1, order + [sigs[i].name], types[sigs[i].name := Contributed(sigs[i])])
  {
    var n := sigs[i].name;
    NamesListed(sigs, i, n);
    PropertyTypesNone(sigs, n, i);
    assert NamesUpTo(sigs, i + 1) == order + [n];
    var ts := types[n := Contributed(sigs[i])];
    forall x | x in order + [n]
      ensures ts[x] == PropertyTypes(sigs, x, i + 1)
    {
    }
    assert forall x :: x in ts <==> x in order + [n];
  }

  lemma CollectOld(sigs: seq<NameAndSig>, i: nat, order: seq<string>, types: map<string, seq<Type>>)
    requires i < |sigs| && Collected(sigs, i, order, types) && sigs[i].name in order
    ensures Collected(sigs, i + 1, order, types[sigs[i].name := types[sigs[i].name] + Contributed(sigs[i])])
  {
    var n := sigs[i].name;
    assert NamesUpTo(sigs, i + 1) == order;
    var ts := types[n := types[n] + Contributed(sigs[i])];
    forall x | x in order
      ensures ts[x] == PropertyTypes(sigs, x, i + 1)
    {
    }
    assert forall x :: x in ts <==> x in order;
  }

  /**
   * `_merge_property_signatures`: the getter types of each name collected
   * in an ordered dictionary, then joined.
   */
  method MergePropertySignatures(sigs: seq<NameAndSig>) returns (r: Result<seq<Constant>, Failure>)
    ensures r == MergePropertiesOf(sigs)
  {
    var order: seq<string> := [];
    var types: map<string, seq<Type>> := map[];
    var i := 0;
    while i < |sigs|
      invariant 0 <= i <= |sigs|
      invariant ParsedUpTo(sigs, i)
      invariant Collected(sigs, i, order, types)
    {
      var s := sigs[i];
      ghost var order0, types0 := order, types;
      if s.name !in types {
        order := order + [s.name];
        types := types[s.name := []];
      }
      var propertyType := ParseSignatureAsProperty(s);
      if propertyType.Err? {
        ParsedBelow(sigs, i);
        assert FirstUnparsable(sigs, 0) == i;
        return Err(propertyType.error);
      }
      var contributed := if propertyType.value.Some? && Truthy(propertyType.value.value) then [propertyType.value.value] else [];
      assert contributed == Contributed(s);
      types := types[s.name := types[s.name] + contributed];
      if s.name in order0 {
        CollectOld(sigs, i, order0, types0);
      } else {
        CollectNew(sigs, i, order0, types0);
        assert types == types0[s.name := Contributed(s)];
      }
      i := i + 1;
    }
    ParsedBelow(sigs, |sigs|);
    assert FirstUnparsable(sigs, 0) == |sigs|;
    var constants := PropertyConstants(order, types);
    assert constants == seq(|order|, k requires 0 <= k < |order| =>
      Constant(order[k], PropertyType(PropertyTypes(sigs, order[k], |sigs|))));
    r := Ok(constants);
  }

  /** The list comprehension ending `_merge_property_signatures`. */
  method PropertyConstants(order: seq<string>, types: map<string, seq<Type>>) returns (constants: seq<Constant>)
    requires forall x :: x in order ==> x in types
    ensures |constants| == |order|
    ensures forall j :: 0 <= j < |order| ==> constants[j] == Constant(order[j], PropertyType(types[order[j]]))
  {
    constants := [];
    var k := 0;
    while k < |order|
      invariant 0 <= k <= |order|
      invariant |constants| == k
      invariant forall j :: 0 <= j < k ==> constants[j] == Constant(order[j], PropertyType(types[order[j]]))
    {
      var ts := types[order[k]];
      var t: Type;
      if ts != [] {
        t := JoinTypes(ts);
      } else {
        t := AnythingType;
      }
      constants := constants + [Constant(order[k], t)];
      k := k + 1;
    }
  }

  /**
   * A merged property is Any when no getter gives a type (setters and
   * deleters give none, nor does a getter returning Any), otherwise the
   * join of the getters' types.
   */
  lemma PropertyTypeMeaning(sigs: seq<NameAndSig>, name: string, n: nat)
    requires n <= |sigs|
    ensures forall t :: t in PropertyTypes(sigs, name, n) ==> (Truthy(t) &&
      exists i :: 0 <= i < n && sigs[i].name == name && ParseSignatureAsProperty(sigs[i]) == Ok(Some(t)))
    ensures PropertyTypes(sigs, name, n) == [] ==> PropertyType(PropertyTypes(sigs, name, n)) == AnythingType
  {
    if n > 0 {
      PropertyTypeMeaning(sigs, name, n - 1);
    }
  }

  // ---------------------------------------------------------------------
  // _merge_signatures

  function MethodNames(fs: seq<Function>): seq<string> {
    if fs == [] then [] else [fs[0].name] + MethodNames(fs[1..])
  }

  /** The names that are both a method and a property, in method order. */
  function BadNames(fs: seq<Function>, cs: seq<Constant>): (r: seq<string>)
    ensures forall x :: x in r <==> (exists i :: 0 <= i < |fs| && fs[i].name == x) && (exists j :: 0 <= j < |cs| && cs[j].name == x)
  {
    if fs == [] then []
    else
      var rest := BadNames(fs[1..], cs);
      (if exists j :: 0 <= j < |cs| && cs[j].name == fs[0].name then [fs[0].name] else []) + rest
  }

  /** What `_merge_signatures` computes: methods and property constants, with no name both. */
  function MergeOf(sigs: seq<NameAndSig>): Result<(seq<Function>, seq<Constant>), Failure> {
    var methods :- MergeMethodsOf(MethodSigs(sigs));
    var constants :- MergePropertiesOf(PropertySigs(sigs));
    var bad := BadNames(methods, constants);
    if bad != [] then Err(ParseError("Incompatible signatures for " + Join(bad, ", ")))
    else Ok((methods, constants))
  }

  /** `_merge_signatures` */
  method MergeSignatures(sigs: seq<NameAndSig>) returns (r: Result<(seq<Function>, seq<Constant>), Failure>)
    ensures r == MergeOf(sigs)
  {
    var methodSigs, propertySigs := SplitMethodsAndProperties(sigs);
    var methods := MergeMethodSignatures(methodSigs);
    if methods.Err? {
      return Err(methods.error);
    }
    var constants := MergePropertySignatures(propertySigs);
    if constants.Err? {
      return Err(constants.error);
    }
    var bad := BadNames(methods.value, constants.value);
    if bad != [] {
      return Err(ParseError("Incompatible signatures for " + Join(bad, ", ")));
    }
    r := Ok((methods.value, constants.value));
  }

  /** Merging properties fails exactly when some signature is not a getter, setter or deleter. */
  lemma MergePropertiesFails(sigs: seq<NameAndSig>)
    ensures MergePropertiesOf(sigs).Ok? <==> forall i :: 0 <= i < |sigs| ==> ParseSignatureAsProperty(sigs[i]).Ok?
  {
  }

  /**
   * A successful property merge gives one constant per distinct name, in
   * order of first appearance, typed from that name's getters.
   */
  lemma MergePropertiesMeaning(sigs: seq<NameAndSig>)
    requires MergePropertiesOf(sigs).Ok?
    ensures var cs := MergePropertiesOf(sigs).value;
      var names := NamesUpTo(sigs, |sigs|);
      && |cs| == |names|
      && (forall k :: 0 <= k < |cs| ==> cs[k].name == names[k] && cs[k].typ == PropertyType(PropertyTypes(sigs, names[k], |sigs|)))
      && (forall a, b :: 0 <= a < b < |cs| ==> cs[a].name != cs[b].name)
      && (forall i :: 0 <= i < |sigs| ==> sigs[i].name in names)
  {
    var names := NamesUpTo(sigs, |sigs|);
    NamesDistinct(sigs, |sigs|);
    forall i | 0 <= i < |sigs|
      ensures sigs[i].name in names
    {
      FirstIndexEarliest(sigs, sigs[i].name, |sigs|, i);
      NamesListed(sigs, |sigs|, sigs[i].name);
    }
  }

  lemma BadNamesHas(fs: seq<Function>, cs: seq<Constant>, i: nat, j: nat)
    requires i < |fs| && j < |cs| && fs[i].name == cs[j].name
    ensures BadNames(fs, cs) != []
  {
    assert fs[i].name in BadNames(fs, cs);
  }

  /** After a successful merge no name is both a method and a property. */
  lemma MergeDisjoint(sigs: seq<NameAndSig>)
    requires MergeOf(sigs).Ok?
    ensures var (fs, cs) := MergeOf(sigs).value;
      forall i, j :: 0 <= i < |fs| && 0 <= j < |cs| ==> fs[i].name != cs[j].name
  {
    var (fs, cs) := MergeOf(sigs).value;
    forall i, j | 0 <= i < |fs| && 0 <= j < |cs|
      ensures fs[i].name != cs[j].name
    {
      if fs[i].name == cs[j].name {
        BadNamesHas(fs, cs, i, j);
        assert false;
      }
    }
  }

  /** After a successful merge every declared name is a method or a property, as its decorator says. */
  lemma MergeCovers(sigs: seq<NameAndSig>, s: NameAndSig)
    requires MergeOf(sigs).Ok? && s in sigs
    ensures var (fs, cs) := MergeOf(sigs).value;
      && (!IsPropertySig(s) ==> exists i :: 0 <= i < |fs| && fs[i].name == s.name)
      && (IsPropertySig(s) ==> exists j :: 0 <= j < |cs| && cs[j].name == s.name)
  {
    var (fs, cs) := MergeOf(sigs).value;
    SplitMembers(sigs);
    if IsPropertySig(s) {
      var ps := PropertySigs(sigs);
      MergePropertiesMeaning(ps);
      var a :| 0 <= a < |ps| && ps[a] == s;
      var names := NamesUpTo(ps, |ps|);
      var k :| 0 <= k < |names| && names[k] == s.name;
      assert cs[k].name == s.name;
    } else {
      var ms := MethodSigs(sigs);
      MergeMethodsMeaning(ms);
      var a :| 0 <= a < |ms| && ms[a] == s;
      var names := NamesUpTo(ms, |ms|);
      var k :| 0 <= k < |names| && names[k] == s.name;
      assert fs[k].name == s.name;
    }
  }
}
