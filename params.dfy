/**
 * The parameter list of a stub function: `_validate_params` turns the
 * parsed `(name, type, default)` entries and `...` into pytd parameters,
 * checking where `*`, `*args`, `**kwargs` and `...` may stand.
 */
module Params {
  import opened Wrappers
  import opened Names
  import opened Pytd
  import opened ParseErrors
  import Passes

  /** A default value as the grammar delivers it: a name, a number or `...`. */
  datatype DefaultValue = DName(s: string) | DInt(i: int) | DFloat | DEllipsis

  /** One entry of a parsed parameter list: `...`, or `(name, type, default)`. */
  datatype ParamSpec =
    | Ellipsis
    | Param(name: string, typ: Option<Type>, default: Option<DefaultValue>)

  /** `_Params` */
  datatype Params = Params(
    required: seq<Parameter>,
    starargs: Option<Parameter>,
    starstarargs: Option<Parameter>,
    hasBareStar: bool)

  const NoneType := NamedType("NoneType")

  // ---------------------------------------------------------------------
  // The single-parameter constructors

  /**
   * `_type_for_default`: `None` gives NoneType, a float gives float, an
   * integer gives int, and anything else (another name, `...`) object.
   */
  function TypeForDefault(d: DefaultValue): (t: Type)
    ensures t.NamedType? && t.name in {"NoneType", "float", "int", "object"}
    ensures t == NoneType <==> d == DName("None")
    ensures t == NamedType("float") <==> d.DFloat?
    ensures t == NamedType("int") <==> d.DInt?
  {
    if d == DName("None") then NoneType
    else if d.DFloat? then NamedType("float")
    else if d.DInt? then NamedType("int")
    else NamedType("object")
  }

  /**
   * `_normal_param`.  A parameter is optional exactly when it has a
   * default.  A `None` default widens the declared type to a union with
   * NoneType; another default gives an untyped parameter its type; an
   * untyped parameter without a usable default is an object.
   */
  function NormalParam(name: string, typ: Option<Type>, default: Option<DefaultValue>, kwonly: bool): (p: Parameter)
    ensures p.name == name && p.kwonly == kwonly && p.mutated == None
    ensures p.optional <==> default.Some?
    ensures typ.Some? && default == Some(DName("None")) ==> p.typ == UnionType([typ.value, NoneType])
    ensures typ.Some? && default != Some(DName("None")) ==> p.typ == typ.value
    ensures typ.None? && default.Some? && default != Some(DName("None")) ==> p.typ == TypeForDefault(default.value)
    ensures typ.None? && (default.None? || default == Some(DName("None"))) ==> p.typ == NamedType("object")
  {
    var t :=
      if default.None? then typ
      else if TypeForDefault(default.value) == NoneType then
        (if typ.Some? then Some(UnionType([typ.value, NoneType])) else typ)
      else if typ.None? then Some(TypeForDefault(default.value))
      else typ;
    Parameter(name, if t.Some? then t.value else NamedType("object"), kwonly, default.Some?, None)
  }

  /** `_star_param`: `*args` is a tuple, of the declared element type when there is one. */
  function StarParam(name: string, typ: Option<Type>): (p: Parameter)
    ensures p.name == name && !p.kwonly && p.optional && p.mutated == None
    ensures p.typ == if typ.None? then NamedType("tuple") else GenericType(NamedType("tuple"), [typ.value])
  {
    Parameter(name, if typ.None? then NamedType("tuple") else GenericType(NamedType("tuple"), [typ.value]), false, true, None)
  }

  /** `_starstar_param`: `**kwargs` is a dict from str to the declared value type. */
  function StarStarParam(name: string, typ: Option<Type>): (p: Parameter)
    ensures p.name == name && !p.kwonly && p.optional && p.mutated == None
    ensures p.typ == if typ.None? then NamedType("dict") else GenericType(NamedType("dict"), [NamedType("str"), typ.value])
  {
    Parameter(name, if typ.None? then NamedType("dict") else GenericType(NamedType("dict"), [NamedType("str"), typ.value]), false, true, None)
  }

  /** The parameters `...` stands for: `InventStarArgParams([])`. */
  const InventedArgs := Parameter("args", NamedType("tuple"), false, true, None)
  const InventedKwargs := Parameter("kwargs", NamedType("dict"), false, true, None)

  lemma NotInEmpty(x: string)
    ensures x !in []
  {
  }

  /** With no names to avoid, the invented parameters are plain `args` and `kwargs`. */
  lemma FreshFromEmpty(base: string, r: string, k: nat)
    requires Passes.FreshFrom([], base, r, k)
    ensures r == base
  {
    if k > 0 {
      NotInEmpty(Passes.Underscores(0) + base);
      assert false;
    }
  }

  // ---------------------------------------------------------------------
  // Where the special entries stand

  predicate IsStarStar(p: ParamSpec) { p.Param? && StartsWith(p.name, "**") }
  /** `*` or `*args` */
  predicate IsStarLike(p: ParamSpec) { p.Param? && StartsWith(p.name, "*") && !StartsWith(p.name, "**") }
  predicate IsBareStar(p: ParamSpec) { IsStarLike(p) && p.name == "*" }
  predicate IsStarArgs(p: ParamSpec) { IsStarLike(p) && p.name != "*" }
  predicate IsNormal(p: ParamSpec) { p.Param? && !StartsWith(p.name, "*") }

  /** A `*` or a `*args` stands before position `i`. */
  predicate StarBefore(ps: seq<ParamSpec>, i: nat)
    requires i <= |ps|
  {
    exists j :: 0 <= j < i && IsStarLike(ps[j])
  }

  predicate BareStarBefore(ps: seq<ParamSpec>, i: nat)
    requires i <= |ps|
  {
    exists j :: 0 <= j < i && IsBareStar(ps[j])
  }

  /**
   * The entry at `i` is misplaced: `...` anywhere but last or after a bare
   * `*`; `**kwargs` anywhere but last; a second `*` or `*args`; a bare `*`
   * in last position.
   */
  predicate Misplaced(ps: seq<ParamSpec>, i: nat)
    requires i < |ps|
  {
    var last := i == |ps| - 1;
    match ps[i]
    case Ellipsis => !last || BareStarBefore(ps, i)
    case Param(name, _, _) =>
      if StartsWith(name, "**") then !last
      else if StartsWith(name, "*") then StarBefore(ps, i) || (name == "*" && last)
      else false
  }

  /** The message raised for the misplaced entry at `i`. */
  function MisplacedMessage(ps: seq<ParamSpec>, i: nat): string
    requires i < |ps| && Misplaced(ps, i)
  {
    var last := i == |ps| - 1;
    match ps[i]
    case Ellipsis =>
      if !last then "ellipsis (...) must be last parameter" else "ellipsis (...) not compatible with bare *"
    case Param(name, _, _) =>
      if StartsWith(name, "**") then name + " must be last parameter"
      else if StarBefore(ps, i) then "Unexpected second *"
      else "Named arguments must follow bare *"
  }

  predicate WellPlaced(ps: seq<ParamSpec>, n: nat)
    requires n <= |ps|
  {
    forall i :: 0 <= i < n ==> !Misplaced(ps, i)
  }

  // ---------------------------------------------------------------------
  // What the first n entries contribute

  /** The ordinary parameters among the first `n` entries, keyword-only after a star. */
  function Normals(ps: seq<ParamSpec>, n: nat): (r: seq<Parameter>)
    requires n <= |ps|
  {
    if n == 0 then []
    else
      var p := ps[n - 1];
      Normals(ps, n - 1) + (if IsNormal(p) then [NormalParam(p.name, p.typ, p.default, StarBefore(ps, n - 1))] else [])
  }

  /** The `*args` parameter after the first `n` entries; `...` invents one. */
  function StarArgsUpTo(ps: seq<ParamSpec>, n: nat): Option<Parameter>
    requires n <= |ps|
  {
    if n == 0 then None
    else if ps[n - 1].Ellipsis? then Some(InventedArgs)
    else if IsStarArgs(ps[n - 1]) then Some(StarParam(ps[n - 1].name[1..], ps[n - 1].typ))
    else StarArgsUpTo(ps, n - 1)
  }

  /** The `**kwargs` parameter after the first `n` entries; `...` invents one. */
  function StarStarArgsUpTo(ps: seq<ParamSpec>, n: nat): Option<Parameter>
    requires n <= |ps|
  {
    if n == 0 then None
    else if ps[n - 1].Ellipsis? then Some(InventedKwargs)
    else if IsStarStar(ps[n - 1]) then Some(StarStarParam(ps[n - 1].name[2..], ps[n - 1].typ))
    else StarStarArgsUpTo(ps, n - 1)
  }

  /** Before an `...`, a `*args` has been seen exactly when one stands among the entries. */
  lemma {:induction false} StarArgsSeen(ps: seq<ParamSpec>, n: nat)
    requires n <= |ps|
    requires forall j :: 0 <= j < n ==> !ps[j].Ellipsis?
    ensures StarArgsUpTo(ps, n).Some? <==> exists j :: 0 <= j < n && IsStarArgs(ps[j])
  {
    if n > 0 {
      StarArgsSeen(ps, n - 1);
    }
  }

  /** The first misplaced entry at or after `i`, or `|ps|` when there is none. */
  function FirstMisplaced(ps: seq<ParamSpec>, i: nat): (r: nat)
    requires i <= |ps|
    ensures i <= r <= |ps|
    ensures r < |ps| ==> Misplaced(ps, r)
    ensures forall j :: i <= j < r ==> !Misplaced(ps, j)
    decreases |ps| - i
  {
    if i == |ps| then |ps| else if Misplaced(ps, i) then i else FirstMisplaced(ps, i + 1)
  }

  lemma FirstMisplacedAt(ps: seq<ParamSpec>, i: nat)
    requires i < |ps| && Misplaced(ps, i) && WellPlaced(ps, i)
    ensures FirstMisplaced(ps, 0) == i
  {
  }

  lemma FirstMisplacedNone(ps: seq<ParamSpec>)
    requires WellPlaced(ps, |ps|)
    ensures FirstMisplaced(ps, 0) == |ps|
  {
  }

  /**
   * What `_validate_params` computes: the failure at the first misplaced
   * entry, or the parameters the entries contribute.
   */
  function ValidateOf(ps: seq<ParamSpec>): Result<Params, Failure> {
    var i := FirstMisplaced(ps, 0);
    if i < |ps| then Err(ParseError(MisplacedMessage(ps, i)))
    else Ok(Params(Normals(ps, |ps|), StarArgsUpTo(ps, |ps|), StarStarArgsUpTo(ps, |ps|), BareStarBefore(ps, |ps|)))
  }

  // ---------------------------------------------------------------------
  // _validate_params

  /**
   * `_validate_params`.  It fails exactly when some entry is misplaced,
   * with the message for the first one.  Otherwise the required
   * parameters are the ordinary entries in order, each keyword-only
   * exactly when a `*` or `*args` precedes it; `*args` and `**kwargs` are
   * the declared ones, or the invented pair for a final `...`.
   */
  method ValidateParams(ps: seq<ParamSpec>) returns (r: Result<Params, Failure>)
    ensures r.Ok? <==> WellPlaced(ps, |ps|)
    ensures r.Err? ==>
      exists i :: (0 <= i < |ps| && Misplaced(ps, i) && WellPlaced(ps, i) &&
                   r.error == ParseError(MisplacedMessage(ps, i)))
    ensures r.Ok? ==> r.value == Params(Normals(ps, |ps|), StarArgsUpTo(ps, |ps|), StarStarArgsUpTo(ps, |ps|),
                                        BareStarBefore(ps, |ps|))
    ensures r == ValidateOf(ps)
  {
    var params: seq<Parameter> := [];
    var hasBareStar := false;
    var stararg: Option<Parameter> := None;
    var starstararg: Option<Parameter> := None;
    var i := 0;
    while i < |ps|
      invariant 0 <= i <= |ps|
      invariant WellPlaced(ps, i)
      invariant i < |ps| ==> forall j :: 0 <= j < i ==> !ps[j].Ellipsis?
      invariant params == Normals(ps, i)
      invariant hasBareStar == BareStarBefore(ps, i)
      invariant stararg == StarArgsUpTo(ps, i)
      invariant starstararg == StarStarArgsUpTo(ps, i)
    {
      var isLast := i == |ps| - 1;
      StarArgsSeen(ps, i);
      assert StarBefore(ps, i) <==> stararg.Some? || hasBareStar by {
        assert forall j :: 0 <= j < i ==> (IsStarLike(ps[j]) <==> IsBareStar(ps[j]) || IsStarArgs(ps[j]));
      }
      match ps[i] {
        case Ellipsis =>
          if !isLast {
            FirstMisplacedAt(ps, i);
            return Err(ParseError("ellipsis (...) must be last parameter"));
          }
          if hasBareStar {
            FirstMisplacedAt(ps, i);
            return Err(ParseError("ellipsis (...) not compatible with bare *"));
          }
          var a, kw := Passes.InventStarArgParams([]);
          ghost var k1: nat :| Passes.FreshFrom([], "args", a.name, k1);
          ghost var k2: nat :| Passes.FreshFrom([], "kwargs", kw.name, k2);
          FreshFromEmpty("args", a.name, k1);
          FreshFromEmpty("kwargs", kw.name, k2);
          stararg, starstararg := Some(a), Some(kw);
        case Param(name, typ, default) =>
          if StartsWith(name, "**") {
            if !isLast {
              FirstMisplacedAt(ps, i);
              return Err(ParseError(name + " must be last parameter"));
            }
            starstararg := Some(StarStarParam(name[2..], typ));
          } else if StartsWith(name, "*") {
            if stararg.Some? || hasBareStar {
              FirstMisplacedAt(ps, i);
              return Err(ParseError("Unexpected second *"));
            }
            if name == "*" && isLast {
              FirstMisplacedAt(ps, i);
              return Err(ParseError("Named arguments must follow bare *"));
            }
            if name == "*" {
              hasBareStar := true;
            } else {
              stararg := Some(StarParam(name[1..], typ));
            }
          } else {
            var kwonly := stararg.Some? || hasBareStar;
            params := params + [NormalParam(name, typ, default, kwonly)];
          }
      }
      i := i + 1;
    }
    FirstMisplacedNone(ps);
    r := Ok(Params(params, stararg, starstararg, hasBareStar));
  }

  // ---------------------------------------------------------------------
  // What a well-placed list means

  /**
   * The required parameters are exactly the ordinary entries, each built
   * by `NormalParam` and keyword-only exactly when a star precedes it.
   */
  lemma {:induction false} NormalsMeaning(ps: seq<ParamSpec>, n: nat, q: Parameter)
    requires n <= |ps|
    ensures q in Normals(ps, n) <==>
      exists i :: 0 <= i < n && IsNormal(ps[i]) && q == NormalParam(ps[i].name, ps[i].typ, ps[i].default, StarBefore(ps, i))
  {
    if n > 0 {
      NormalsMeaning(ps, n - 1, q);
    }
  }

  /**
   * In a well-placed list `...` and `**kwargs` can only be last, there is
   * at most one `*` or `*args`, and a bare `*` is followed by something
   * and never by `...`.
   */
  lemma WellPlacedShape(ps: seq<ParamSpec>)
    requires WellPlaced(ps, |ps|)
    ensures forall i :: 0 <= i < |ps| && (ps[i].Ellipsis? || IsStarStar(ps[i])) ==> i == |ps| - 1
    ensures forall i, j :: 0 <= i < j < |ps| && IsStarLike(ps[i]) ==> !IsStarLike(ps[j])
    ensures forall i :: 0 <= i < |ps| && IsBareStar(ps[i]) ==> i < |ps| - 1 && !ps[|ps| - 1].Ellipsis?
  {
    forall i | 0 <= i < |ps| && (ps[i].Ellipsis? || IsStarStar(ps[i]))
      ensures i == |ps| - 1
    {
      assert !Misplaced(ps, i);
    }
    forall i, j | 0 <= i < j < |ps| && IsStarLike(ps[i])
      ensures !IsStarLike(ps[j])
    {
      assert !Misplaced(ps, j);
      assert StarBefore(ps, j);
    }
    forall i | 0 <= i < |ps| && IsBareStar(ps[i])
      ensures i < |ps| - 1 && !ps[|ps| - 1].Ellipsis?
    {
      assert !Misplaced(ps, i);
      if i < |ps| - 1 {
        assert !Misplaced(ps, |ps| - 1);
        assert BareStarBefore(ps, |ps| - 1);
      }
    }
  }

  /**
   * Conversely, any list of that shape is well placed: the checks reject
   * nothing more.
   */
  lemma ShapeWellPlaced(ps: seq<ParamSpec>)
    requires forall i :: 0 <= i < |ps| && (ps[i].Ellipsis? || IsStarStar(ps[i])) ==> i == |ps| - 1
    requires forall i, j :: 0 <= i < j < |ps| && IsStarLike(ps[i]) ==> !IsStarLike(ps[j])
    requires forall i :: 0 <= i < |ps| && IsBareStar(ps[i]) ==> i < |ps| - 1 && !ps[|ps| - 1].Ellipsis?
    ensures WellPlaced(ps, |ps|)
  {
    forall i | 0 <= i < |ps|
      ensures !Misplaced(ps, i)
    {
    }
  }

  /** A final `...` stands for `*args, **kwargs` even after a declared `*args`. */
  lemma EllipsisInvents(ps: seq<ParamSpec>)
    requires ps != [] && ps[|ps| - 1].Ellipsis?
    ensures StarArgsUpTo(ps, |ps|) == Some(InventedArgs)
    ensures StarStarArgsUpTo(ps, |ps|) == Some(InventedKwargs)
  {
  }

  /** Without `...`, `*args` is the declared one, or absent. */
  lemma {:induction false} DeclaredStarArgs(ps: seq<ParamSpec>, n: nat, i: nat)
    requires n <= |ps| && i < n && IsStarArgs(ps[i])
    requires forall j :: 0 <= j < n ==> !ps[j].Ellipsis?
    requires forall j :: 0 <= j < n && j != i ==> !IsStarArgs(ps[j])
    ensures StarArgsUpTo(ps, n) == Some(StarParam(ps[i].name[1..], ps[i].typ))
  {
    if n - 1 != i {
      DeclaredStarArgs(ps, n - 1, i);
    }
  }
}
