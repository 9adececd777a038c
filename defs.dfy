/**
 * The value-level pieces of the stub builder: definition lists split by
 * kind, the duplicate-name check, class parents and metaclass, class-level
 * aliases resolved to constants, the classes generated for named tuples,
 * TypeVar declarations, `from ... import` bindings, and the assembly of a
 * class and of the module's TypeDeclUnit from these.
 */
module Definitions {
  import opened Wrappers
  import opened Names
  import opened Pytd
  import opened ParseErrors
  import opened Params
  import opened ParserTypes
  import opened Signatures
  import Mro

  /** A definition of a class body or of the module: a constant, a function signature or an alias. */
  datatype Definition = DConstant(c: Constant) | DFunction(f: NameAndSig) | DAlias(a: Alias)

  function DefName(d: Definition): string {
    match d
    case DConstant(c) => c.name
    case DFunction(f) => f.name
    case DAlias(a) => a.name
  }

  /** `%r` of a string without quotes or backslashes in it. */
  function Repr(s: string): string {
    "'" + s + "'"
  }

  // ---------------------------------------------------------------------
  // _split_definitions

  function ConstantsOf(defs: seq<Definition>): seq<Constant> {
    if defs == [] then []
    else ConstantsOf(defs[..|defs| - 1]) + (if defs[|defs| - 1].DConstant? then [defs[|defs| - 1].c] else [])
  }

  function FunctionsOf(defs: seq<Definition>): seq<NameAndSig> {
    if defs == [] then []
    else FunctionsOf(defs[..|defs| - 1]) + (if defs[|defs| - 1].DFunction? then [defs[|defs| - 1].f] else [])
  }

  function AliasesOf(defs: seq<Definition>): seq<Alias> {
    if defs == [] then []
    else AliasesOf(defs[..|defs| - 1]) + (if defs[|defs| - 1].DAlias? then [defs[|defs| - 1].a] else [])
  }

  /** The three lists share out the definitions: each one lands in the list of its kind. */
  lemma {:induction false} SplitPartition(defs: seq<Definition>)
    ensures |ConstantsOf(defs)| + |FunctionsOf(defs)| + |AliasesOf(defs)| == |defs|
    ensures forall c :: c in ConstantsOf(defs) <==> DConstant(c) in defs
    ensures forall f :: f in FunctionsOf(defs) <==> DFunction(f) in defs
    ensures forall a :: a in AliasesOf(defs) <==> DAlias(a) in defs
  {
    if defs != [] {
      var init := defs[..|defs| - 1];
      SplitPartition(init);
      assert defs == init + [defs[|defs| - 1]];
    }
  }

  /** `_split_definitions`, one definition at a time. */
  method SplitDefinitions(defs: seq<Definition>) returns (constants: seq<Constant>, functions: seq<NameAndSig>, aliases: seq<Alias>)
    ensures constants == ConstantsOf(defs) && functions == FunctionsOf(defs) && aliases == AliasesOf(defs)
  {
    constants, functions, aliases := [], [], [];
    var i := 0;
    while i < |defs|
      invariant 0 <= i <= |defs|
      invariant constants == ConstantsOf(defs[..i])
      invariant functions == FunctionsOf(defs[..i])
      invariant aliases == AliasesOf(defs[..i])
    {
      assert defs[..i + 1][..i] == defs[..i];
      var d := defs[i];
      if d.DConstant? {
        constants := constants + [d.c];
      } else if d.DFunction? {
        functions := functions + [d.f];
      } else {
        aliases := aliases + [d.a];
      }
      i := i + 1;
    }
    assert defs[..i] == defs;
  }

  // ---------------------------------------------------------------------
  // Duplicate names (`collections.Counter(all_names)`)

  /** The distinct elements of `xs`, each at its first occurrence (`list(set(xs))` in a fixed order). */
  function Dedup(xs: seq<string>): (r: seq<string>)
    ensures forall x :: x in r <==> x in xs
    ensures Mro.NoDup(r)
  {
    if xs == [] then []
    else
      var d := Dedup(xs[..|xs| - 1]);
      assert xs == xs[..|xs| - 1] + [xs[|xs| - 1]];
      if xs[|xs| - 1] in d then d else d + [xs[|xs| - 1]]
  }

  /** The elements of `xs` that occur at least twice in `all`. */
  function Repeated(all: seq<string>, xs: seq<string>): (r: seq<string>)
    ensures forall x :: x in r <==> x in xs && multiset(all)[x] >= 2
  {
    if xs == [] then []
    else
      var rest := Repeated(all, xs[..|xs| - 1]);
      assert xs == xs[..|xs| - 1] + [xs[|xs| - 1]];
      if multiset(all)[xs[|xs| - 1]] >= 2 then rest + [xs[|xs| - 1]] else rest
  }

  /** The names counted at least twice, each once. */
  function Duplicates(all: seq<string>): (r: seq<string>)
    ensures forall x :: x in r <==> multiset(all)[x] >= 2
    ensures Mro.NoDup(r)
  {
    Dedup(Repeated(all, all))
  }

  lemma {:induction false} TwiceHasPair(all: seq<string>, x: string)
    requires multiset(all)[x] >= 2
    ensures exists i, j :: 0 <= i < j < |all| && all[i] == x && all[j] == x
  {
    var init := all[..|all| - 1];
    assert all == init + [all[|all| - 1]];
    if all[|all| - 1] == x && x in init {
      var i :| 0 <= i < |init| && init[i] == x;
      assert all[i] == x;
    } else {
      assert multiset(init)[x] >= 2;
      TwiceHasPair(init, x);
      var i, j :| 0 <= i < j < |init| && init[i] == x && init[j] == x;
      assert all[i] == x && all[j] == x;
    }
  }

  lemma PairCountsTwice(all: seq<string>, i: nat, j: nat)
    requires i < j < |all| && all[i] == all[j]
    ensures multiset(all)[all[i]] >= 2
  {
    assert all == all[..j] + all[j..];
    assert all[i] in all[..j];
    assert all[j..][0] == all[i];
  }

  /** No duplicates are reported exactly when the names are pairwise distinct. */
  lemma NoDuplicatesDistinct(all: seq<string>)
    ensures Duplicates(all) == [] <==> Mro.NoDup(all)
  {
    if Duplicates(all) != [] {
      var x := Duplicates(all)[0];
      TwiceHasPair(all, x);
    } else {
      forall i, j | 0 <= i < j < |all|
        ensures all[i] != all[j]
      {
        if all[i] == all[j] {
          PairCountsTwice(all, i, j);
        }
      }
    }
  }

  function FunctionNames(fs: seq<NameAndSig>): seq<string> {
    seq(|fs|, k requires 0 <= k < |fs| => fs[k].name)
  }

  function ConstantNames(cs: seq<Constant>): seq<string> {
    seq(|cs|, k requires 0 <= k < |cs| => cs[k].name)
  }

  function AliasNames(as_: seq<Alias>): seq<string> {
    seq(|as_|, k requires 0 <= k < |as_| => as_[k].name)
  }

  function ClassNames(cs: seq<Class>): seq<string> {
    seq(|cs|, k requires 0 <= k < |cs| => cs[k].name)
  }

  /** The name of a type parameter (the builder only records TypeParameter nodes). */
  function TypeParamName(t: Type): string {
    if t.TypeParameter? then t.name else ""
  }

  function TypeParamNames(ts: seq<Type>): seq<string> {
    seq(|ts|, k requires 0 <= k < |ts| => TypeParamName(ts[k]))
  }

  // ---------------------------------------------------------------------
  // add_class

  /** An argument of a class statement: a parent type, or `keyword=value`. */
  datatype ParentArg = PType(t: Type) | PKeyword(keyword: string, value: Type)

  function ParentTypes(args: seq<ParentArg>): seq<Type> {
    if args == [] then []
    else ParentTypes(args[..|args| - 1]) + (if args[|args| - 1].PType? then [args[|args| - 1].t] else [])
  }

  predicate KeywordBeforeLast(args: seq<ParentArg>) {
    exists i :: 0 <= i < |args| - 1 && args[i].PKeyword?
  }

  /**
   * The parents and metaclass of a class statement: only the last argument
   * may be a keyword, and that keyword must be `metaclass`.
   */
  function ParentsOf(args: seq<ParentArg>): Result<(seq<Type>, Option<Type>), Failure> {
    if KeywordBeforeLast(args) then Err(ParseError("metaclass must be last argument"))
    else if |args| > 0 && args[|args| - 1].PKeyword? && args[|args| - 1].keyword != "metaclass" then
      Err(ParseError("Only 'metaclass' allowed as classdef kwarg"))
    else
      Ok((ParentTypes(args), if |args| > 0 && args[|args| - 1].PKeyword? then Some(args[|args| - 1].value) else None))
  }

  /** The loop over `parent_args` at the head of `add_class`. */
  method ClassParents(args: seq<ParentArg>) returns (r: Result<(seq<Type>, Option<Type>), Failure>)
    ensures r == ParentsOf(args)
  {
    var parents: seq<Type> := [];
    var metaclass: Option<Type> := None;
    var i := 0;
    while i < |args|
      invariant 0 <= i <= |args|
      invariant forall j :: 0 <= j < i ==> args[j].PType?
      invariant parents == ParentTypes(args[..i])
      invariant metaclass == None
    {
      assert args[..i + 1][..i] == args[..i];
      var p := args[i];
      if p.PType? {
        parents := parents + [p.t];
      } else {
        if i != |args| - 1 {
          return Err(ParseError("metaclass must be last argument"));
        }
        if p.keyword != "metaclass" {
          return Err(ParseError("Only 'metaclass' allowed as classdef kwarg"));
        }
        assert !KeywordBeforeLast(args);
        assert ParentTypes(args) == ParentTypes(args[..i]);
        return Ok((ParentTypes(args[..i]), Some(p.value)));
      }
      i := i + 1;
    }
    assert args[..i] == args;
    return Ok((parents, metaclass));
  }

  /** The class-level names checked for duplicates: each function name once, then constants and aliases. */
  function ClassMemberNames(defs: seq<Definition>): seq<string> {
    Dedup(FunctionNames(FunctionsOf(defs))) + ConstantNames(ConstantsOf(defs)) + AliasNames(AliasesOf(defs))
  }

  /** What `add_class` checks before it looks at the condition: the arguments, then duplicate names. */
  function ClassHeader(args: seq<ParentArg>, defs: seq<Definition>): Result<(seq<Type>, Option<Type>), Failure> {
    var pm :- ParentsOf(args);
    var dups := Duplicates(ClassMemberNames(defs));
    if dups != [] then Err(ParseError("Duplicate identifier(s): " + Join(dups, ", "))) else Ok(pm)
  }

  /** A class that passes the checks has pairwise distinct member names. */
  lemma ClassHeaderDistinct(args: seq<ParentArg>, defs: seq<Definition>)
    ensures ClassHeader(args, defs).Ok? <==> ParentsOf(args).Ok? && Mro.NoDup(ClassMemberNames(defs))
  {
    NoDuplicatesDistinct(ClassMemberNames(defs));
  }

  /** The message for an alias that does not name a member of the class. */
  function IllegalAlias(name: string): string {
    "Illegal value for alias " + Repr(name) + ". Value must be an attribute on the same class."
  }

  /** The class's constants and aliases, in that order. */
  function Members(constants: seq<Constant>, aliases: seq<Alias>): seq<Definition> {
    seq(|constants|, k requires 0 <= k < |constants| => DConstant(constants[k]))
      + seq(|aliases|, k requires 0 <= k < |aliases| => DAlias(aliases[k]))
  }

  /** `{val.name: val for val in ms}`: a later member wins. */
  function DictOf(ms: seq<Definition>): map<string, Definition> {
    if ms == [] then map[]
    else DictOf(ms[..|ms| - 1])[DefName(ms[|ms| - 1]) := ms[|ms| - 1]]
  }

  /** Each entry of the table is a member filed under its own name, and every member's name has an entry. */
  lemma {:induction false} DictOfMembers(ms: seq<Definition>)
    ensures forall x :: x in DictOf(ms) ==> DictOf(ms)[x] in ms && DefName(DictOf(ms)[x]) == x
    ensures forall m :: m in ms ==> DefName(m) in DictOf(ms)
  {
    if ms != [] {
      var last := ms[|ms| - 1];
      DictOfMembers(ms[..|ms| - 1]);
      assert ms == ms[..|ms| - 1] + [last];
    }
  }

  /** The value of a member when it is not an alias (`val.type`). */
  function TypeOfDef(d: Definition): Type {
    match d
    case DConstant(c) => c.typ
    case DAlias(a) => a.typ
    case DFunction(_) => AnythingType
  }

  /**
   * The `while isinstance(val, pytd.Alias)` loop of `add_class` AS WRITTEN:
   * `None` means the loop is still running after `fuel` rounds.
   */
  function ChaseAsWritten(d: map<string, Definition>, val: Definition, fuel: nat): Option<Result<Type, Failure>>
    decreases fuel
  {
    if !val.DAlias? then Some(Ok(TypeOfDef(val)))
    else if fuel == 0 then None
    else if !val.a.typ.NamedType? || val.a.typ.name !in d then Some(Err(ParseError(IllegalAlias(val.a.name))))
    else ChaseAsWritten(d, d[val.a.typ.name], fuel - 1)
  }

  const CycleX := Alias("x", NamedType("y"))
  const CycleY := Alias("y", NamedType("x"))

  function CycleDict(): map<string, Definition> {
    DictOf(Members([], [CycleX, CycleY]))
  }

  lemma CycleDictIs()
    ensures CycleDict() == map["x" := DAlias(CycleX), "y" := DAlias(CycleY)]
  {
    var ms := Members([], [CycleX, CycleY]);
    assert ms == [DAlias(CycleX), DAlias(CycleY)];
    assert ms[..1] == [DAlias(CycleX)];
    assert ms[..1][..0] == [];
    assert DictOf(ms[..1]) == map["x" := DAlias(CycleX)];
  }

  /** For the class body `x = y; y = x` the loop never ends, whatever the number of rounds. */
  lemma {:induction false} AliasCycleAsWritten(fuel: nat, startAtX: bool)
    ensures ChaseAsWritten(CycleDict(), DAlias(if startAtX then CycleX else CycleY), fuel) == None
    decreases fuel
  {
    CycleDictIs();
    if fuel > 0 {
      AliasCycleAsWritten(fuel - 1, !startAtX);
    }
  }

  /**
   * The alias chase as evidently intended: it keeps the names it has
   * passed through and rejects an alias that leads back to one of them.
   */
  function Chase(d: map<string, Definition>, val: Definition, seen: set<string>): Result<Type, Failure>
    decreases d.Keys - seen
  {
    if !val.DAlias? then Ok(TypeOfDef(val))
    else if !val.a.typ.NamedType? || val.a.typ.name !in d || val.a.typ.name in seen then
      Err(ParseError(IllegalAlias(val.a.name)))
    else
      var n := val.a.typ.name;
      assert d.Keys - (seen + {n}) < d.Keys - seen by {
        assert n in d.Keys - seen;
      }
      Chase(d, d[n], seen + {n})
  }

  /** The corrected chase rejects the cycle `x = y; y = x`. */
  lemma AliasCycleRejected()
    ensures Chase(CycleDict(), DAlias(CycleX), {"x"}) == Err(ParseError(IllegalAlias("y")))
  {
    CycleDictIs();
    var d := CycleDict();
    assert Chase(d, DAlias(CycleX), {"x"}) == Chase(d, DAlias(CycleY), {"x", "y"});
  }

  /** Where the corrected chase and the loop as written both finish in one step, they agree. */
  lemma ChaseAgreesOnDirect(d: map<string, Definition>, val: Definition, seen: set<string>)
    requires val.DAlias? ==> val.a.typ.NamedType? && val.a.typ.name in d && val.a.typ.name !in seen && !d[val.a.typ.name].DAlias?
    ensures ChaseAsWritten(d, val, 2) == Some(Chase(d, val, seen))
  {
  }

  /** Where `k` rounds of the loop lead from `v`, when each of them follows an alias to a known name. */
  function Follow(d: map<string, Definition>, v: Definition, k: nat): (r: Option<Definition>)
    ensures k == 0 ==> r == Some(v)
    decreases k
  {
    if k == 0 then Some(v)
    else if v.DAlias? && v.a.typ.NamedType? && v.a.typ.name in d then Follow(d, d[v.a.typ.name], k - 1)
    else None
  }

  lemma {:induction false} FollowCompose(d: map<string, Definition>, v: Definition, j: nat, k: nat)
    requires Follow(d, v, j).Some?
    ensures Follow(d, v, j + k) == Follow(d, Follow(d, v, j).value, k)
    decreases j
  {
    if j > 0 {
      FollowCompose(d, d[v.a.typ.name], j - 1, k);
    }
  }

  /** `k` rounds that follow aliases leave the loop where `Follow` says, with `k` fewer rounds to go. */
  lemma {:induction false} FollowShift(d: map<string, Definition>, v: Definition, k: nat, fuel: nat)
    requires Follow(d, v, k).Some? && k <= fuel
    ensures ChaseAsWritten(d, v, fuel) == ChaseAsWritten(d, Follow(d, v, k).value, fuel - k)
    decreases k
  {
    if k > 0 {
      FollowShift(d, d[v.a.typ.name], k - 1, fuel - 1);
    }
  }

  /** The loop is still running after `fuel` rounds when more than `fuel` alias steps lie ahead. */
  lemma {:induction false} FollowBeyond(d: map<string, Definition>, v: Definition, k: nat, fuel: nat)
    requires Follow(d, v, k).Some? && fuel < k
    ensures ChaseAsWritten(d, v, fuel) == None
    decreases fuel
  {
    if fuel > 0 {
      FollowBeyond(d, d[v.a.typ.name], k - 1, fuel - 1);
    }
  }

  /** The loop as written never ends once an alias leads back to itself. */
  lemma {:induction false} CycleNeverEnds(d: map<string, Definition>, v: Definition, m: nat, fuel: nat)
    requires m >= 1 && Follow(d, v, m) == Some(v)
    ensures ChaseAsWritten(d, v, fuel) == None
    decreases fuel
  {
    if fuel < m {
      FollowBeyond(d, v, m, fuel);
    } else {
      FollowShift(d, v, m, fuel);
      CycleNeverEnds(d, v, m, fuel - m);
    }
  }

  /** Some number of rounds of the loop lead from the definition named `s` to `v`. */
  ghost predicate LeadsTo(d: map<string, Definition>, s: string, v: Definition) {
    s in d && exists k: nat :: Follow(d, d[s], k) == Some(v)
  }

  /**
   * Wherever the loop as written ends, the corrected chase ends with the
   * same answer, as long as every name in `seen` leads on to `val`.
   */
  lemma {:induction false} ChaseAgreesWhenFinite(d: map<string, Definition>, val: Definition, seen: set<string>, fuel: nat)
    requires ChaseAsWritten(d, val, fuel).Some?
    requires forall s :: s in seen ==> LeadsTo(d, s, val)
    ensures Chase(d, val, seen) == ChaseAsWritten(d, val, fuel).value
    decreases fuel
  {
    if val.DAlias? && val.a.typ.NamedType? && val.a.typ.name in d {
      var n := val.a.typ.name;
      assert Follow(d, val, 1) == Some(d[n]);
      if n in seen {
        var k: nat :| Follow(d, d[n], k) == Some(val);
        FollowCompose(d, val, 1, k);
        CycleNeverEnds(d, val, 1 + k, fuel);
        assert false;
      }
      forall s | s in seen + {n}
        ensures LeadsTo(d, s, d[n])
      {
        if s == n {
          assert Follow(d, d[s], 0) == Some(d[n]);
        } else {
          var k: nat :| Follow(d, d[s], k) == Some(val);
          FollowCompose(d, d[s], k, 1);
          assert Follow(d, d[s], k + 1) == Some(d[n]);
        }
      }
      ChaseAgreesWhenFinite(d, d[n], seen + {n}, fuel - 1);
    }
  }

  /**
   * The corrected chase of an alias of the class differs from the loop as
   * written only where that loop never ends: whenever the loop ends, after
   * any number of rounds, the two give the same type or the same error.
   */
  lemma ChaseAgreesUnlessCycle(d: map<string, Definition>, alias: Alias, fuel: nat)
    requires alias.name in d && d[alias.name] == DAlias(alias)
    requires ChaseAsWritten(d, DAlias(alias), fuel).Some?
    ensures Chase(d, DAlias(alias), {alias.name}) == ChaseAsWritten(d, DAlias(alias), fuel).value
  {
    assert Follow(d, d[alias.name], 0) == Some(DAlias(alias));
    ChaseAgreesWhenFinite(d, DAlias(alias), {alias.name}, fuel);
  }

  /** A resolved alias has the type of one of the class's constants. */
  lemma {:induction false} ChaseEndsAtConstant(d: map<string, Definition>, ms: seq<Definition>, val: Definition, seen: set<string>)
    requires forall x :: x in d ==> d[x] in ms
    requires forall m :: m in ms ==> !m.DFunction?
    requires val in ms
    requires Chase(d, val, seen).Ok?
    ensures exists c :: DConstant(c) in ms && c.typ == Chase(d, val, seen).value
    decreases d.Keys - seen
  {
    if !val.DAlias? {
      assert val.DConstant?;
      assert DConstant(val.c) in ms;
    } else {
      var n := val.a.typ.name;
      assert d.Keys - (seen + {n}) < d.Keys - seen by {
        assert n in d.Keys - seen;
      }
      ChaseEndsAtConstant(d, ms, d[n], seen + {n});
    }
  }

  /** `constants.append(pytd.Constant(name, val.type))` for each alias, in order; the first failure wins. */
  function ResolvedAliases(d: map<string, Definition>, aliases: seq<Alias>): (r: Result<seq<Constant>, Failure>)
    ensures r.Ok? ==> |r.value| == |aliases|
  {
    if aliases == [] then Ok([])
    else
      var init :- ResolvedAliases(d, aliases[..|aliases| - 1]);
      var last := aliases[|aliases| - 1];
      var t :- Chase(d, DAlias(last), {last.name});
      Ok(init + [Constant(last.name, t)])
  }

  /** Each alias becomes a constant of the same name whose type its chase found. */
  lemma {:induction false} ResolvedAliasesMeaning(d: map<string, Definition>, aliases: seq<Alias>)
    ensures ResolvedAliases(d, aliases).Ok? <==>
      forall k :: 0 <= k < |aliases| ==> Chase(d, DAlias(aliases[k]), {aliases[k].name}).Ok?
    ensures ResolvedAliases(d, aliases).Ok? ==>
      var cs := ResolvedAliases(d, aliases).value;
      && |cs| == |aliases|
      && forall k :: 0 <= k < |aliases| ==>
           cs[k] == Constant(aliases[k].name, Chase(d, DAlias(aliases[k]), {aliases[k].name}).value)
  {
    if aliases != [] {
      var init := aliases[..|aliases| - 1];
      ResolvedAliasesMeaning(d, init);
      assert forall k :: 0 <= k < |init| ==> init[k] == aliases[k];
    }
  }

  /** The loop over the class's aliases, each chased to a constant with a `while` loop. */
  method ResolveAliases(d: map<string, Definition>, aliases: seq<Alias>) returns (r: Result<seq<Constant>, Failure>)
    ensures r == ResolvedAliases(d, aliases)
  {
    var out: seq<Constant> := [];
    var i := 0;
    while i < |aliases|
      invariant 0 <= i <= |aliases|
      invariant ResolvedAliases(d, aliases[..i]) == Ok(out)
    {
      assert aliases[..i + 1][..i] == aliases[..i];
      var t := ChaseAlias(d, aliases[i]);
      if t.Err? {
        ResolvedAliasesPrefix(d, aliases, i + 1);
        return Err(t.error);
      }
      out := out + [Constant(aliases[i].name, t.value)];
      i := i + 1;
    }
    assert aliases[..i] == aliases;
    return Ok(out);
  }

  /** A failure in a prefix is the failure of the whole list. */
  lemma {:induction false} ResolvedAliasesPrefix(d: map<string, Definition>, aliases: seq<Alias>, n: nat)
    requires n <= |aliases| && ResolvedAliases(d, aliases[..n]).Err?
    ensures ResolvedAliases(d, aliases) == ResolvedAliases(d, aliases[..n])
    decreases |aliases| - n
  {
    if n < |aliases| {
      assert aliases[..n + 1][..n] == aliases[..n];
      ResolvedAliasesPrefix(d, aliases, n + 1);
    } else {
      assert aliases[..n] == aliases;
    }
  }

  /** The corrected `while` loop for one alias. */
  method ChaseAlias(d: map<string, Definition>, alias: Alias) returns (r: Result<Type, Failure>)
    ensures r == Chase(d, DAlias(alias), {alias.name})
  {
    var val := DAlias(alias);
    var seen := {alias.name};
    while val.DAlias?
      invariant Chase(d, val, seen) == Chase(d, DAlias(alias), {alias.name})
      decreases d.Keys - seen
    {
      var n := if val.a.typ.NamedType? then val.a.typ.name else "";
      if !val.a.typ.NamedType? || n !in d || n in seen {
        return Err(ParseError(IllegalAlias(val.a.name)));
      }
      assert d.Keys - (seen + {n}) < d.Keys - seen by {
        assert n in d.Keys - seen;
      }
      val := d[n];
      seen := seen + {n};
    }
    return Ok(TypeOfDef(val));
  }

  /** `[p for p in parents if not isinstance(p, pytd.NothingType)]` */
  function NonNothing(ts: seq<Type>): (r: seq<Type>)
    ensures forall t :: t in r <==> t in ts && !t.NothingType?
  {
    if ts == [] then []
    else
      var init := NonNothing(ts[..|ts| - 1]);
      assert ts == ts[..|ts| - 1] + [ts[|ts| - 1]];
      if ts[|ts| - 1].NothingType? then init else init + [ts[|ts| - 1]]
  }

  /** The parents a class gets: old-style classes inherit from `classobj`. */
  function EffectiveParents(className: string, parents: seq<Type>): seq<Type> {
    var kept := NonNothing(parents);
    if kept == [] && className != "classobj" && className != "object" then [NamedType("classobj")] else kept
  }

  /** What `add_class` builds once the checks passed and the condition is active. */
  function ClassBody(className: string, parents: seq<Type>, metaclass: Option<Type>, defs: seq<Definition>): Result<Class, Failure> {
    var constants := ConstantsOf(defs);
    var aliases := AliasesOf(defs);
    var resolved :- ResolvedAliases(DictOf(Members(constants, aliases)), aliases);
    var merged :- MergeOf(FunctionsOf(defs));
    Ok(Class(className, metaclass, EffectiveParents(className, parents), merged.0, constants + resolved + merged.1, []))
  }

  /** A built class has parents unless it is `classobj` or `object`, and none of them is NothingType. */
  lemma ClassParentsShape(className: string, parents: seq<Type>)
    ensures var ps := EffectiveParents(className, parents);
      && (forall t :: t in ps ==> !t.NothingType?)
      && (ps == [] ==> className == "classobj" || className == "object")
      && (forall t :: t in parents && !t.NothingType? ==> t in ps)
  {
  }

  /**
   * A built class keeps its constants, adds one constant per alias and one
   * per property, and has one function per method name.
   */
  lemma ClassBodyMeaning(className: string, parents: seq<Type>, metaclass: Option<Type>, defs: seq<Definition>)
    requires ClassBody(className, parents, metaclass, defs).Ok?
    ensures var cls := ClassBody(className, parents, metaclass, defs).value;
      && cls.name == className && cls.metaclass == metaclass
      && cls.constants[..|ConstantsOf(defs)|] == ConstantsOf(defs)
      && |cls.constants| >= |ConstantsOf(defs)| + |AliasesOf(defs)|
      && (forall k :: 0 <= k < |AliasesOf(defs)| ==> cls.constants[|ConstantsOf(defs)| + k].name == AliasesOf(defs)[k].name)
      && (forall f :: f in FunctionsOf(defs) && !IsPropertySig(f) ==> exists i :: 0 <= i < |cls.methods| && cls.methods[i].name == f.name)
  {
    var constants := ConstantsOf(defs);
    var aliases := AliasesOf(defs);
    var d := DictOf(Members(constants, aliases));
    ResolvedAliasesMeaning(d, aliases);
    var cls := ClassBody(className, parents, metaclass, defs).value;
    var resolved := ResolvedAliases(d, aliases).value;
    assert cls.constants == constants + resolved + MergeOf(FunctionsOf(defs)).value.1;
    forall f | f in FunctionsOf(defs) && !IsPropertySig(f)
      ensures exists i :: 0 <= i < |cls.methods| && cls.methods[i].name == f.name
    {
      MergeCovers(FunctionsOf(defs), f);
    }
  }

  /**
   * A class-level alias resolves to the type of one of the class's own
   * constants, for any name table whose entries are the class's members
   * (as `DictOf(Members(constants, aliases))`'s are).
   */
  lemma AliasTypesFromConstants(d: map<string, Definition>, constants: seq<Constant>, aliases: seq<Alias>, k: nat)
    requires forall x :: x in d ==> d[x] in Members(constants, aliases)
    requires ResolvedAliases(d, aliases).Ok?
    requires k < |aliases|
    ensures exists c :: c in constants && c.typ == ResolvedAliases(d, aliases).value[k].typ
  {
    var ms := Members(constants, aliases);
    MembersShape(constants, aliases);
    assert aliases[k] in aliases;
    ResolvedFromMembers(d, ms, aliases, k);
  }

  lemma ResolvedFromMembers(d: map<string, Definition>, ms: seq<Definition>, aliases: seq<Alias>, k: nat)
    requires forall x :: x in d ==> d[x] in ms
    requires forall m :: m in ms ==> !m.DFunction?
    requires ResolvedAliases(d, aliases).Ok?
    requires k < |aliases| && DAlias(aliases[k]) in ms
    ensures exists c :: DConstant(c) in ms && c.typ == ResolvedAliases(d, aliases).value[k].typ
  {
    ResolvedAliasesMeaning(d, aliases);
    ChaseEndsAtConstant(d, ms, DAlias(aliases[k]), {aliases[k].name});
  }

  lemma MembersShape(constants: seq<Constant>, aliases: seq<Alias>)
    ensures forall m :: m in Members(constants, aliases) ==> !m.DFunction?
    ensures forall c :: DConstant(c) in Members(constants, aliases) ==> c in constants
    ensures forall a :: a in aliases ==> DAlias(a) in Members(constants, aliases)
  {
    var ms := Members(constants, aliases);
    forall m | m in ms
      ensures !m.DFunction? && (m.DConstant? ==> m.c in constants)
    {
      var i :| 0 <= i < |ms| && ms[i] == m;
      if i < |constants| {
        assert m == DConstant(constants[i]);
      } else {
        assert m == DAlias(aliases[i - |constants|]);
      }
    }
    forall a | a in aliases
      ensures DAlias(a) in ms
    {
      var k :| 0 <= k < |aliases| && aliases[k] == a;
      assert ms[|constants| + k] == DAlias(a);
    }
  }

  // ---------------------------------------------------------------------
  // new_named_tuple

  const NamedTupleMembers: seq<string> :=
    ["_asdict", "__dict__", "_fields", "__getnewargs__", "__getstate__", "_make", "_replace", "__slots__"]

  /** `"~%s_%d" % (base_name, k)` */
  function TupleClassName(baseName: string, k: nat): string {
    "~" + baseName + "_" + NatToString(k)
  }

  lemma DigitInjective(a: nat, b: nat)
    requires a < 10 && b < 10 && Digit(a) == Digit(b)
    ensures a == b
  {
    assert forall k :: 0 <= k < 10 ==> "0123456789"[k] as int == 48 + k;
  }

  lemma {:induction false} NatToStringInjective(a: nat, b: nat)
    requires NatToString(a) == NatToString(b)
    ensures a == b
  {
    if a < 10 && b < 10 {
      DigitInjective(a, b);
    } else if a >= 10 && b >= 10 {
      var sa, sb := NatToString(a / 10), NatToString(b / 10);
      assert NatToString(a) == sa + [Digit(a % 10)];
      assert NatToString(b) == sb + [Digit(b % 10)];
      assert NatToString(a)[|sa|] == Digit(a % 10);
      DigitInjective(a % 10, b % 10);
      assert sa == NatToString(a)[..|sa|];
      NatToStringInjective(a / 10, b / 10);
    }
  }

  lemma NoUnderscoreInNumber(k: nat)
    ensures '_' !in NatToString(k)
  {
    var s := NatToString(k);
    assert forall i :: 0 <= i < |s| ==> s[i] != '_';
  }

  /** Different (base name, count) pairs give different class names. */
  lemma TupleClassNameInjective(b1: string, k1: nat, b2: string, k2: nat)
    requires TupleClassName(b1, k1) == TupleClassName(b2, k2)
    ensures b1 == b2 && k1 == k2
  {
    NoUnderscoreInNumber(k1);
    NoUnderscoreInNumber(k2);
    var p1, p2 := "~" + b1 + "_", "~" + b2 + "_";
    var n := TupleClassName(b1, k1);
    assert n == p1 + NatToString(k1) && n == p2 + NatToString(k2);
    UnderscoreSplit(p1, NatToString(k1), p2, NatToString(k2));
    UnderscoreSplit(p2, NatToString(k2), p1, NatToString(k1));
    assert NatToString(k1) == n[|p1|..] == NatToString(k2);
    NatToStringInjective(k1, k2);
    assert p1 == n[..|p1|] == p2;
    assert b1 == p1[1..|p1| - 1] && b2 == p2[1..|p2| - 1];
  }

  /** A digit string cannot hide the underscore that ends a longer prefix. */
  lemma UnderscoreSplit(p1: string, d1: string, p2: string, d2: string)
    requires p1 + d1 == p2 + d2 && |p2| >= 1 && p2[|p2| - 1] == '_' && '_' !in d1
    ensures |p2| <= |p1|
  {
    var s := p1 + d1;
    assert s[|p2| - 1] == '_';
    assert forall i :: |p1| <= i < |s| ==> s[i] == d1[i - |p1|];
  }

  /** The TypeVar `_T<name>` bounded by the generated class. */
  function TupleTypeVar(className: string): Type {
    TypeParameter("_T" + className, [], Some(NamedType(className)), None)
  }

  function FieldTypes(fields: seq<(string, Type)>): seq<Type> {
    seq(|fields|, k requires 0 <= k < |fields| => fields[k].1)
  }

  /** The fields as constants, then the attributes every namedtuple has, as Any. */
  function NamedTupleConstants(fields: seq<(string, Type)>): seq<Constant> {
    seq(|fields|, k requires 0 <= k < |fields| => Constant(fields[k].0, fields[k].1))
      + seq(|NamedTupleMembers|, k requires 0 <= k < |NamedTupleMembers| => Constant(NamedTupleMembers[k], AnythingType))
  }

  /** `def __new__(cls: Type[_T], <fields>) -> _T` */
  function NewParams(className: string, fields: seq<(string, Type)>): seq<ParamSpec> {
    [Param("cls", Some(GenericType(NamedType("type"), [TupleTypeVar(className)])), None)]
      + seq(|fields|, k requires 0 <= k < |fields| => Param(fields[k].0, Some(fields[k].1), None))
  }

  /** `def __init__(self, *args, **kwargs) -> NoneType`, all Any. */
  const InitParams: seq<ParamSpec> :=
    [Param("self", Some(AnythingType), None), Param("*args", Some(AnythingType), None), Param("**kwargs", Some(AnythingType), None)]

  /** The class `new_named_tuple` generates under the name `className`. */
  function NamedTupleClassOf(className: string, fields: seq<(string, Type)>): Result<Class, Failure> {
    var newSig :- NewFunctionOf([], "__new__", NewParams(className, fields), TupleTypeVar(className), []);
    var initSig :- NewFunctionOf([], "__init__", InitParams, NamedType("NoneType"), []);
    var methods :- MergeMethodsOf([newSig, initSig]);
    Ok(Class(className, None, [HeterogeneousTuple(NamedType("tuple"), FieldTypes(fields))], methods, NamedTupleConstants(fields), []))
  }

  /**
   * A generated class has the tuple of its field types as its one parent,
   * its fields followed by the namedtuple attributes as constants, and a
   * static `__new__` and an `__init__` as its methods.
   */
  lemma NamedTupleClassMeaning(className: string, fields: seq<(string, Type)>)
    requires NamedTupleClassOf(className, fields).Ok?
    ensures var cls := NamedTupleClassOf(className, fields).value;
      && cls.name == className
      && cls.parents == [HeterogeneousTuple(NamedType("tuple"), FieldTypes(fields))]
      && |cls.constants| == |fields| + |NamedTupleMembers|
      && (forall k :: 0 <= k < |fields| ==> cls.constants[k] == Constant(fields[k].0, fields[k].1))
      && |cls.methods| == 2
      && cls.methods[0].name == "__new__" && cls.methods[0].kind == StaticMethod
      && cls.methods[1].name == "__init__"
  {
    var newSig := NewFunctionOf([], "__new__", NewParams(className, fields), TupleTypeVar(className), []).value;
    var initSig := NewFunctionOf([], "__init__", InitParams, NamedType("NoneType"), []).value;
    NewFunctionMeaning([], "__new__", NewParams(className, fields), TupleTypeVar(className), []);
    NewFunctionMeaning([], "__init__", InitParams, NamedType("NoneType"), []);
    NewAndInit(newSig, initSig);
  }

  /** Merging a `__new__` and an `__init__` signature gives a static `__new__` and an `__init__`. */
  lemma NewAndInit(a: NameAndSig, b: NameAndSig)
    requires a.name == "__new__" && b.name == "__init__"
    requires MergeMethodsOf([a, b]).Ok?
    ensures var fs := MergeMethodsOf([a, b]).value;
      |fs| == 2 && fs[0].name == "__new__" && fs[0].kind == StaticMethod && fs[1].name == "__init__"
  {
    var sigs := [a, b];
    MergeMethodsMeaning(sigs);
    assert NamesUpTo(sigs, 2) == ["__new__", "__init__"] by {
      assert NamesUpTo(sigs, 0) == [];
      assert NamesUpTo(sigs, 1) == ["__new__"];
    }
  }

  // ---------------------------------------------------------------------
  // add_type_var

  const TypeVarKeywords: set<string> := {"bound", "covariant", "contravariant"}

  /** The keyword names other than `bound`, `covariant` and `contravariant`, each once. */
  function UnrecognizedKeywords(namedArgs: seq<(string, Type)>): (r: seq<string>)
    ensures forall x :: x in r <==> x !in TypeVarKeywords && exists k :: 0 <= k < |namedArgs| && namedArgs[k].0 == x
  {
    var names := seq(|namedArgs|, k requires 0 <= k < |namedArgs| => namedArgs[k].0);
    var extra := Dedup(names);
    var r := Unrecognized(extra);
    assert forall x :: x in names <==> exists k :: 0 <= k < |namedArgs| && namedArgs[k].0 == x by {
      forall x ensures x in names <==> exists k :: 0 <= k < |namedArgs| && namedArgs[k].0 == x {
        if x in names {
          var k :| 0 <= k < |names| && names[k] == x;
          assert namedArgs[k].0 == x;
        }
        if exists k :: 0 <= k < |namedArgs| && namedArgs[k].0 == x {
          var k :| 0 <= k < |namedArgs| && namedArgs[k].0 == x;
          assert names[k] == x;
        }
      }
    }
    r
  }

  function Unrecognized(xs: seq<string>): (r: seq<string>)
    ensures forall x :: x in r <==> x in xs && x !in TypeVarKeywords
  {
    if xs == [] then []
    else
      var init := Unrecognized(xs[..|xs| - 1]);
      assert xs == xs[..|xs| - 1] + [xs[|xs| - 1]];
      if xs[|xs| - 1] in TypeVarKeywords then init else init + [xs[|xs| - 1]]
  }

  /** `dict(named_args).get("bound")`: the value of the last `bound` keyword. */
  function LastBound(namedArgs: seq<(string, Type)>): Option<Type> {
    if namedArgs == [] then None
    else if namedArgs[|namedArgs| - 1].0 == "bound" then Some(namedArgs[|namedArgs| - 1].1)
    else LastBound(namedArgs[..|namedArgs| - 1])
  }

  /** The bound is the value of the last `bound` keyword, and there is none without one. */
  lemma {:induction false} LastBoundMeaning(namedArgs: seq<(string, Type)>)
    ensures LastBound(namedArgs).None? <==> forall k :: 0 <= k < |namedArgs| ==> namedArgs[k].0 != "bound"
    ensures LastBound(namedArgs).Some? ==>
      exists i :: 0 <= i < |namedArgs| && namedArgs[i] == ("bound", LastBound(namedArgs).value)
        && (forall j :: i < j < |namedArgs| ==> namedArgs[j].0 != "bound")
  {
    if namedArgs != [] {
      var init := namedArgs[..|namedArgs| - 1];
      LastBoundMeaning(init);
      assert forall k :: 0 <= k < |init| ==> init[k] == namedArgs[k];
    }
  }

  /** `add_type_var`'s checks and the TypeParameter it records. */
  function TypeVarOf(name: string, nameArg: string, constraints: Option<seq<Type>>, namedArgs: seq<(string, Type)>): Result<Type, Failure> {
    if name != nameArg then
      Err(ParseError("TypeVar name needs to be " + Repr(nameArg) + " (not " + Repr(name) + ")"))
    else
      var extra := UnrecognizedKeywords(namedArgs);
      if extra != [] then Err(ParseError("Unrecognized keyword(s): " + Join(extra, ", ")))
      else Ok(TypeParameter(name, constraints.GetOr([]), LastBound(namedArgs), None))
  }

  /** A TypeVar is accepted exactly when it is named after itself and uses only the known keywords. */
  lemma TypeVarMeaning(name: string, nameArg: string, constraints: Option<seq<Type>>, namedArgs: seq<(string, Type)>)
    ensures TypeVarOf(name, nameArg, constraints, namedArgs).Ok? <==>
      name == nameArg && forall k :: 0 <= k < |namedArgs| ==> namedArgs[k].0 in TypeVarKeywords
    ensures TypeVarOf(name, nameArg, constraints, namedArgs).Ok? ==>
      var t := TypeVarOf(name, nameArg, constraints, namedArgs).value;
      t.TypeParameter? && t.name == name && t.scope.None?
      && (constraints.Some? ==> t.constraints == constraints.value)
      && (constraints.None? ==> t.constraints == [])
  {
    var extra := UnrecognizedKeywords(namedArgs);
    if name == nameArg && extra != [] {
      assert extra[0] in extra;
    }
  }

  // ---------------------------------------------------------------------
  // add_import

  /** An imported item: `name`, or `name as newName`. */
  datatype ImportItem = Item(name: string) | Renamed(name: string, newName: string)

  function NewName(it: ImportItem): string {
    if it.Renamed? then it.newName else it.name
  }

  function ImportedType(pkg: string, it: ImportItem): Type {
    NamedType(pkg + "." + it.name)
  }

  /** The type map after `from pkg import items`: each item other than `*` binds its new name. */
  function ImportTypeMap(m: map<string, Type>, pkg: string, items: seq<ImportItem>): map<string, Type> {
    if items == [] then m
    else
      var m' := ImportTypeMap(m, pkg, items[..|items| - 1]);
      var it := items[|items| - 1];
      if it.name == "*" then m' else m'[NewName(it) := ImportedType(pkg, it)]
  }

  /** The aliases recorded: one per item other than `*`, unless the package is `typing`. */
  function ImportAliases(pkg: string, items: seq<ImportItem>): seq<Alias> {
    if items == [] then []
    else
      var init := ImportAliases(pkg, items[..|items| - 1]);
      var it := items[|items| - 1];
      if it.name == "*" || pkg == "typing" then init else init + [Alias(NewName(it), ImportedType(pkg, it))]
  }

  /** The module path map: the original name of each item maps to its dotted path, unless from `typing`. */
  function ImportModulePaths(mp: map<string, string>, pkg: string, items: seq<ImportItem>): map<string, string> {
    if items == [] then mp
    else
      var mp' := ImportModulePaths(mp, pkg, items[..|items| - 1]);
      var it := items[|items| - 1];
      if it.name == "*" || pkg == "typing" then mp' else mp'[it.name := pkg + "." + it.name]
  }

  /** The last import that binds a name decides its type. */
  lemma {:induction false} ImportBinds(m: map<string, Type>, pkg: string, items: seq<ImportItem>, i: nat)
    requires i < |items| && items[i].name != "*"
    requires forall j :: i < j < |items| && items[j].name != "*" ==> NewName(items[j]) != NewName(items[i])
    ensures NewName(items[i]) in ImportTypeMap(m, pkg, items)
    ensures ImportTypeMap(m, pkg, items)[NewName(items[i])] == NamedType(pkg + "." + items[i].name)
  {
    var init := items[..|items| - 1];
    if i < |items| - 1 {
      ImportBinds(m, pkg, init, i);
    }
  }

  /** A name no item binds keeps its old binding. */
  lemma {:induction false} ImportKeeps(m: map<string, Type>, pkg: string, items: seq<ImportItem>, x: string)
    requires forall j :: 0 <= j < |items| && items[j].name != "*" ==> NewName(items[j]) != x
    ensures x in ImportTypeMap(m, pkg, items) <==> x in m
    ensures x in m ==> ImportTypeMap(m, pkg, items)[x] == m[x]
  {
    if items != [] {
      ImportKeeps(m, pkg, items[..|items| - 1], x);
    }
  }

  /** Imports from `typing` record neither aliases nor module paths. */
  lemma {:induction false} TypingImportsOnlyBind(mp: map<string, string>, items: seq<ImportItem>)
    ensures ImportAliases("typing", items) == []
    ensures ImportModulePaths(mp, "typing", items) == mp
  {
    if items != [] {
      TypingImportsOnlyBind(mp, items[..|items| - 1]);
    }
  }

  /** Each alias recorded for an import refers to a dotted name inside the package. */
  lemma {:induction false} ImportAliasesQualified(pkg: string, items: seq<ImportItem>)
    ensures forall a :: a in ImportAliases(pkg, items) ==>
      a.typ.NamedType? && StartsWith(a.typ.name, pkg + ".")
  {
    if items != [] {
      ImportAliasesQualified(pkg, items[..|items| - 1]);
      var it := items[|items| - 1];
      var s := pkg + "." + it.name;
      assert s[..|pkg + "."|] == pkg + ".";
    }
  }

  predicate HasRename(items: seq<ImportItem>) {
    exists k :: 0 <= k < |items| && items[k].Renamed?
  }

  // ---------------------------------------------------------------------
  // new_constant and new_alias_or_constant

  /** The value of `NAME: value`: `None` (`...`), an integer literal, or a type. */
  datatype ConstValue = CNone | CInt(i: int) | CType(t: Type)

  /** `new_constant`: only `0` is allowed as an integer literal, and it stands for `int`. */
  function NewConstant(name: string, value: ConstValue): (r: Result<Constant, Failure>)
    ensures r.Err? <==> value.CInt? && value.i != 0
    ensures r.Err? ==> r.error == ParseError("Only '0' allowed as int literal")
    ensures r.Ok? ==> r.value.name == name
    ensures r.Ok? ==> r.value.typ == (if value.CNone? then AnythingType else if value.CInt? then NamedType("int") else value.t)
  {
    if value.CNone? then Ok(Constant(name, AnythingType))
    else if value.CInt? then
      if value.i != 0 then Err(ParseError("Only '0' allowed as int literal")) else Ok(Constant(name, NamedType("int")))
    else Ok(Constant(name, value.t))
  }

  /** `new_alias_or_constant`: `NAME = True` and `NAME = False` are bool constants, anything else an alias. */
  function NewAliasOrConstant(name: string, value: Type): (r: Definition)
    ensures r.DConstant? <==> value == NamedType("True") || value == NamedType("False")
    ensures r.DConstant? ==> r.c == Constant(name, NamedType("bool"))
    ensures !r.DConstant? ==> r == DAlias(Alias(name, value))
  {
    if value in [NamedType("True"), NamedType("False")] then DConstant(Constant(name, NamedType("bool")))
    else DAlias(Alias(name, value))
  }

  /** Every generated class is named after its base name and its position among that base name's classes. */
  ghost predicate WellNamed(generated: map<string, seq<Class>>) {
    forall b, i :: b in generated && 0 <= i < |generated[b]| ==> generated[b][i].name == TupleClassName(b, i)
  }

  /** A new base name starts with no classes, which keeps every name in place. */
  lemma WellNamedAddEmpty(generated: map<string, seq<Class>>, b: string)
    requires WellNamed(generated) && b !in generated
    ensures WellNamed(generated[b := []])
  {
  }

  /** Appending the class named after the current count keeps every name in place. */
  lemma WellNamedAppend(generated: map<string, seq<Class>>, b: string, cls: Class)
    requires WellNamed(generated) && b in generated
    requires cls.name == TupleClassName(b, |generated[b]|)
    ensures WellNamed(generated[b := generated[b] + [cls]])
  {
    var g: map<string, seq<Class>> := generated[b := generated[b] + [cls]];
    forall b': string, i: int | b' in g && 0 <= i < |g[b']|
      ensures g[b'][i].name == TupleClassName(b', i)
    {
      if b' == b && i == |generated[b]| {
        assert g[b'][i] == cls;
      } else if b' == b {
        assert g[b'][i] == generated[b][i];
      }
    }
  }

  // ---------------------------------------------------------------------
  // _build_type_decl_unit

  /** The generated classes, base name by base name in the order the base names first appeared. */
  function GeneratedClasses(order: seq<string>, generated: map<string, seq<Class>>): seq<Class> {
    if order == [] then []
    else
      GeneratedClasses(order[..|order| - 1], generated)
        + (if order[|order| - 1] in generated then generated[order[|order| - 1]] else [])
  }

  /** The module-level names checked for duplicates. */
  function TopLevelNames(functions: seq<NameAndSig>, constants: seq<Constant>, typeParams: seq<Type>,
                         classes: seq<Class>, aliases: seq<Alias>): seq<string> {
    Dedup(FunctionNames(functions)) + ConstantNames(constants) + TypeParamNames(typeParams)
      + ClassNames(classes) + AliasNames(aliases)
  }

  /**
   * The unit `_build_type_decl_unit` returns for the definitions `defs`
   * and the state the builder has accumulated (its constants, type
   * parameters, generated and declared classes, and aliases).
   */
  function UnitOf(defs: seq<Definition>, constants0: seq<Constant>, typeParams: seq<Type>,
                  generated: seq<Class>, classes0: seq<Class>, aliases0: seq<Alias>): Result<TypeDeclUnit, Failure> {
    if AliasesOf(defs) != [] then Err(InternalError("AssertionError"))
    else
      var constants := ConstantsOf(defs) + constants0;
      var classes := generated + classes0;
      var functions := FunctionsOf(defs);
      var dups := Duplicates(TopLevelNames(functions, constants, typeParams, classes, aliases0));
      if dups != [] then Err(ParseError("Duplicate top-level identifier(s): " + Join(dups, ", ")))
      else
        var merged :- MergeOf(functions);
        if merged.1 != [] then
          Err(ParseError("Module-level functions with property decorators: " + Join(ConstantNames(merged.1), ", ")))
        else Ok(TypeDeclUnit("", constants, typeParams, classes, merged.0, aliases0))
  }

  /**
   * A unit is built exactly when there are no module-level aliases among
   * the definitions, the top-level names are distinct, the signatures merge
   * and none of them is a property; then the unit holds every constant,
   * type parameter, class and alias, and its names are pairwise distinct.
   */
  lemma UnitMeaning(defs: seq<Definition>, constants0: seq<Constant>, typeParams: seq<Type>,
                    generated: seq<Class>, classes0: seq<Class>, aliases0: seq<Alias>)
    ensures UnitOf(defs, constants0, typeParams, generated, classes0, aliases0).Ok? <==>
      && AliasesOf(defs) == []
      && Mro.NoDup(TopLevelNames(FunctionsOf(defs), ConstantsOf(defs) + constants0, typeParams, generated + classes0, aliases0))
      && MergeOf(FunctionsOf(defs)).Ok?
      && MergeOf(FunctionsOf(defs)).value.1 == []
    ensures UnitOf(defs, constants0, typeParams, generated, classes0, aliases0).Ok? ==>
      var u := UnitOf(defs, constants0, typeParams, generated, classes0, aliases0).value;
      && u.constants == ConstantsOf(defs) + constants0
      && u.typeParams == typeParams
      && u.classes == generated + classes0
      && u.aliases == aliases0
      && u.functions == MergeOf(FunctionsOf(defs)).value.0
  {
    NoDuplicatesDistinct(TopLevelNames(FunctionsOf(defs), ConstantsOf(defs) + constants0, typeParams, generated + classes0, aliases0));
  }

  /** A module-level function always ends up in the unit, under its own name. */
  lemma UnitHasFunctions(defs: seq<Definition>, constants0: seq<Constant>, typeParams: seq<Type>,
                         generated: seq<Class>, classes0: seq<Class>, aliases0: seq<Alias>, f: NameAndSig)
    requires UnitOf(defs, constants0, typeParams, generated, classes0, aliases0).Ok?
    requires DFunction(f) in defs
    ensures exists i :: (0 <= i < |UnitOf(defs, constants0, typeParams, generated, classes0, aliases0).value.functions|
      && UnitOf(defs, constants0, typeParams, generated, classes0, aliases0).value.functions[i].name == f.name)
  {
    UnitMeaning(defs, constants0, typeParams, generated, classes0, aliases0);
    SplitPartition(defs);
    var fs := FunctionsOf(defs);
    MergeCovers(fs, f);
    if IsPropertySig(f) {
      assert false;
    }
  }

  lemma {:induction false} GeneratedNamesFrom(order: seq<string>, generated: map<string, seq<Class>>, c: Class)
    requires WellNamed(generated) && c in GeneratedClasses(order, generated)
    ensures exists b, i :: (b in order && b in generated && 0 <= i < |generated[b]| && c == generated[b][i]
      && c.name == TupleClassName(b, i))
  {
    var init := order[..|order| - 1];
    var b := order[|order| - 1];
    if c in GeneratedClasses(init, generated) {
      GeneratedNamesFrom(init, generated, c);
      var b', i :| b' in init && b' in generated && 0 <= i < |generated[b']| && c == generated[b'][i]
        && c.name == TupleClassName(b', i);
      assert b' in order;
    } else {
      var i :| 0 <= i < |generated[b]| && generated[b][i] == c;
    }
  }

  /** The classes generated for named tuples have pairwise distinct names. */
  lemma {:induction false} GeneratedNamesDistinct(order: seq<string>, generated: map<string, seq<Class>>)
    requires WellNamed(generated) && Mro.NoDup(order)
    ensures Mro.NoDup(ClassNames(GeneratedClasses(order, generated)))
  {
    if order != [] {
      var init := order[..|order| - 1];
      var b := order[|order| - 1];
      GeneratedNamesDistinct(init, generated);
      var front := GeneratedClasses(init, generated);
      var back := if b in generated then generated[b] else [];
      var all := GeneratedClasses(order, generated);
      assert all == front + back;
      forall p, q | 0 <= p < q < |all|
        ensures all[p].name != all[q].name
      {
        if q < |front| {
          assert ClassNames(front)[p] == all[p].name && ClassNames(front)[q] == all[q].name;
        } else if p >= |front| {
          assert all[p] == back[p - |front|] && all[q] == back[q - |front|];
          if all[p].name == all[q].name {
            TupleClassNameInjective(b, p - |front|, b, q - |front|);
          }
        } else {
          assert all[p] in front;
          GeneratedNamesFrom(init, generated, all[p]);
          var b', i :| b' in init && b' in generated && 0 <= i < |generated[b']| && all[p] == generated[b'][i]
            && all[p].name == TupleClassName(b', i);
          assert all[q] == back[q - |front|];
          if all[p].name == all[q].name {
            TupleClassNameInjective(b', i, b, q - |front|);
          }
        }
      }
    }
  }
}
