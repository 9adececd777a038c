/**
 * The failures the stub builder raises: `ParseError` with its message, and
 * the Python exceptions (an `assert`, an index out of range, a type error)
 * that escape the builder unconverted.
 */
module ParseErrors {
  datatype Failure = ParseError(msg: string) | InternalError(exception: string)
}

/**
 * Conditional definitions in a stub: `if sys.version_info >= (3,):` and
 * `if sys.platform == "linux":` blocks.  A condition is evaluated against
 * the parser's version and platform, and a stack of condition scopes
 * decides which clause of an if/elif/else chain is active.
 */
module Conditions {
  import opened Wrappers
  import opened ParseErrors

  const DefaultVersion: seq<int> := [2, 7, 6]
  const DefaultPlatform: string := "linux"

  // ---------------------------------------------------------------------
  // _ConditionScope

  /**
   * One if/elif/else chain.  The scope is active while the clause being
   * read is in force; it can trigger while no earlier clause has.  The
   * ghost counter records how often an applied condition made it active.
   */
  class ConditionScope {
    const parent: ConditionScope?
    var active: bool
    var canTrigger: bool
    ghost var triggered: nat

    /** A scope is triggered at most once, and never again after it was. */
    ghost predicate Valid()
      reads this
    {
      triggered <= 1 && (canTrigger ==> triggered == 0)
    }

    /**
     * The top scope is always active.  A nested scope starts inactive and
     * can be triggered exactly when its parent is active.
     */
    constructor (parent: ConditionScope?)
      ensures this.parent == parent
      ensures parent == null ==> active && !canTrigger
      ensures parent != null ==> !active && canTrigger == parent.active
      ensures triggered == 0 && Valid()
    {
      this.parent := parent;
      if parent == null {
        active := true;
        canTrigger := false;
      } else {
        active := false;
        canTrigger := parent.active;
      }
      triggered := 0;
    }

    /**
     * `apply_condition`: the scope becomes active when it may still
     * trigger and the value is true, and then can no longer trigger;
     * otherwise it is inactive.
     */
    method ApplyCondition(value: bool)
      requires parent != null
      requires Valid()
      modifies this
      ensures active == (old(canTrigger) && value)
      ensures canTrigger == (old(canTrigger) && !value)
      ensures triggered == old(triggered) + (if active then 1 else 0)
      ensures Valid()
    {
      if canTrigger && value {
        active := true;
        canTrigger := false;
        triggered := triggered + 1;
      } else {
        active := false;
      }
    }
  }

  /**
   * The activity of each clause of a chain whose scope starts with
   * `canTrigger` and is handed `values`, one per clause, as
   * `ApplyCondition` computes it.
   */
  function Activity(canTrigger: bool, values: seq<bool>): (r: seq<bool>)
    ensures |r| == |values|
    decreases |values|
  {
    if values == [] then []
    else [canTrigger && values[0]] + Activity(canTrigger && !values[0], values[1..])
  }

  /**
   * In a chain at most one clause is active: the first clause whose value
   * is true, provided the chain could trigger at all.
   */
  lemma {:induction false} ActivityFirstTrue(canTrigger: bool, values: seq<bool>)
    ensures |Activity(canTrigger, values)| == |values|
    ensures forall i :: 0 <= i < |values| ==>
      (Activity(canTrigger, values)[i] <==>
        canTrigger && values[i] && forall j :: 0 <= j < i ==> !values[j])
  {
    if values != [] {
      ActivityFirstTrue(canTrigger && !values[0], values[1..]);
      var a := Activity(canTrigger, values);
      forall i | 0 <= i < |values|
        ensures a[i] <==> canTrigger && values[i] && forall j :: 0 <= j < i ==> !values[j]
      {
        if i > 0 {
          assert a[i] == Activity(canTrigger && !values[0], values[1..])[i - 1];
          assert forall j :: 0 <= j < i - 1 ==> values[1..][j] == values[j + 1];
        }
      }
    }
  }

  /** Consequently two clauses of one chain are never both active. */
  lemma ActivityAtMostOnce(canTrigger: bool, values: seq<bool>, i: nat, j: nat)
    requires i < j < |values|
    ensures !(Activity(canTrigger, values)[i] && Activity(canTrigger, values)[j])
  {
    ActivityFirstTrue(canTrigger, values);
  }

  /**
   * `if_end`'s choice: the definitions of the first clause whose flag is
   * true, or nothing when no flag is.
   */
  function FirstActive<D>(clauses: seq<(bool, seq<D>)>): (r: seq<D>)
    ensures (forall i :: 0 <= i < |clauses| ==> !clauses[i].0) ==> r == []
    ensures forall i :: 0 <= i < |clauses| && clauses[i].0 && (forall j :: 0 <= j < i ==> !clauses[j].0) ==>
      r == clauses[i].1
    decreases |clauses|
  {
    if clauses == [] then []
    else if clauses[0].0 then clauses[0].1
    else
      var rest := FirstActive(clauses[1..]);
      assert forall i :: 1 <= i < |clauses| ==> clauses[i] == clauses[1..][i - 1];
      rest
  }

  // ---------------------------------------------------------------------
  // _three_tuple

  /**
   * `_three_tuple` as written: two zeros are appended and the first three
   * elements kept, so an empty tuple comes out with only two elements.
   */
  function ThreeTupleAsWritten(v: seq<int>): seq<int> {
    var padded := v + [0, 0];
    if |padded| <= 3 then padded else padded[..3]
  }

  /** The empty tuple is not normalised to a three-tuple. */
  lemma ThreeTupleEmptyAsWritten()
    ensures ThreeTupleAsWritten([]) == [0, 0]
    ensures ThreeTupleAsWritten([]) != ThreeTupleAsWritten([0])
  {
    assert ThreeTupleAsWritten([0]) == [0, 0, 0];
  }

  /**
   * The tuple normalised to exactly three elements: its first three
   * elements, padded with zeros.
   */
  function ThreeTuple(v: seq<int>): (r: seq<int>)
    ensures |r| == 3
    ensures forall i :: 0 <= i < 3 ==> r[i] == if i < |v| then v[i] else 0
  {
    (v + [0, 0, 0])[..3]
  }

  /** On every tuple but the empty one the two definitions agree. */
  lemma ThreeTupleAgrees(v: seq<int>)
    requires v != []
    ensures ThreeTupleAsWritten(v) == ThreeTuple(v)
  {
    var w := ThreeTupleAsWritten(v);
    assert |w| == 3;
    assert forall i :: 0 <= i < 3 ==> w[i] == (v + [0, 0])[i];
  }

  /** Normalising twice changes nothing, and a three-tuple is left alone. */
  lemma ThreeTupleIdempotent(v: seq<int>)
    ensures ThreeTuple(ThreeTuple(v)) == ThreeTuple(v)
    ensures |v| == 3 ==> ThreeTuple(v) == v
  {
  }

  // ---------------------------------------------------------------------
  // Values, keys and Python's comparison of them

  /** A value a condition compares with: a string, an integer or a tuple. */
  datatype Value = VInt(i: int) | VStr(s: string) | VTuple(items: seq<Value>)

  /** `__getitem__` keys on `sys.version_info`: `[i]` and `[lo:hi]`. */
  datatype Key = IntKey(i: int) | SliceKey(lo: Option<int>, hi: Option<int>)

  datatype Op = Eq | Ne | Lt | Le | Gt | Ge

  /** `_is_int_tuple` */
  predicate IsIntTuple(v: Value) {
    v.VTuple? && forall k :: 0 <= k < |v.items| ==> v.items[k].VInt?
  }

  function Ints(items: seq<Value>): (r: seq<int>)
    requires forall k :: 0 <= k < |items| ==> items[k].VInt?
    ensures |r| == |items| && forall k :: 0 <= k < |items| ==> r[k] == items[k].i
  {
    if items == [] then [] else [items[0].i] + Ints(items[1..])
  }

  /** Python's tuple order on integer tuples: lexicographic, a proper prefix first. */
  predicate LexLess(a: seq<int>, b: seq<int>)
    decreases |a|
  {
    if a == [] then b != []
    else b != [] && (a[0] < b[0] || (a[0] == b[0] && LexLess(a[1..], b[1..])))
  }

  /** The tuple order is strict: it never holds both ways, nor between equals. */
  lemma {:induction false} LexLessStrict(a: seq<int>, b: seq<int>)
    ensures LexLess(a, b) ==> a != b && !LexLess(b, a)
    decreases |a|
  {
    if a != [] && b != [] && a[0] == b[0] {
      LexLessStrict(a[1..], b[1..]);
      if a == b { assert a[1..] == b[1..]; }
    }
  }

  /** Any two different tuples are ordered one way or the other. */
  lemma {:induction false} LexLessTotal(a: seq<int>, b: seq<int>)
    ensures a == b || LexLess(a, b) || LexLess(b, a)
    decreases |a|
  {
    if a != [] && b != [] && a[0] == b[0] {
      LexLessTotal(a[1..], b[1..]);
      if a[1..] == b[1..] { assert a == [a[0]] + a[1..] && b == [b[0]] + b[1..]; }
    }
  }

  function CompareInts(op: Op, x: int, y: int): bool {
    match op
    case Eq => x == y
    case Ne => x != y
    case Lt => x < y
    case Le => x <= y
    case Gt => x > y
    case Ge => x >= y
  }

  function CompareTuples(op: Op, x: seq<int>, y: seq<int>): bool {
    match op
    case Eq => x == y
    case Ne => x != y
    case Lt => LexLess(x, y)
    case Le => LexLess(x, y) || x == y
    case Gt => LexLess(y, x)
    case Ge => LexLess(y, x) || x == y
  }

  /** Python's `s[i]`: negative indices count from the end; outside the tuple, IndexError. */
  function Index(s: seq<int>, i: int): (r: Option<int>)
    ensures r.Some? <==> -|s| <= i < |s|
    ensures 0 <= i < |s| ==> r == Some(s[i])
    ensures -|s| <= i < 0 ==> r == Some(s[|s| + i])
  {
    if 0 <= i < |s| then Some(s[i])
    else if -|s| <= i < 0 then Some(s[|s| + i])
    else None
  }

  /** A slice bound as Python resolves it: from the end when negative, clamped to the tuple. */
  function SliceBound(b: Option<int>, n: nat, dflt: nat): (r: nat)
    requires dflt <= n
    ensures r <= n
  {
    if b.None? then dflt
    else if b.value < 0 then (if b.value + n < 0 then 0 else b.value + n)
    else if b.value > n then n
    else b.value
  }

  /** Python's `s[lo:hi]`, which never raises. */
  function Slice(s: seq<int>, lo: Option<int>, hi: Option<int>): (r: seq<int>)
    ensures |r| <= |s|
    ensures lo.None? && hi.None? ==> r == s
    ensures lo.None? && hi.Some? && 0 <= hi.value <= |s| ==> r == s[..hi.value]
  {
    var a := SliceBound(lo, |s|, 0);
    var b := SliceBound(hi, |s|, |s|);
    if a <= b then s[a..b] else []
  }

  // ---------------------------------------------------------------------
  // _eval_comparison and _eval_condition

  /** A condition: `left or right`, or `name[key] op value`. */
  datatype Condition =
    | Or(left: Condition, right: Condition)
    | Comparison(name: string, key: Option<Key>, op: Op, value: Value)

  const UnsupportedPrefix := "Unsupported condition: '"

  /**
   * `_eval_comparison` against the parser's `version` and `platform`.
   * `sys.version_info` compares with an integer under an integer key and
   * with a tuple of integers under a slice (no key reads as the whole
   * tuple); both sides of a slice comparison are normalised to
   * three-tuples.  `sys.platform` compares with a string, by == or !=
   * only.  Any other name is unsupported.
   */
  function EvalComparison(version: seq<int>, platform: string, name: string, key: Option<Key>, op: Op, value: Value): (r: Result<bool, Failure>)
    ensures name != "sys.version_info" && name != "sys.platform" ==>
      r == Err(ParseError(UnsupportedPrefix + name + "'."))
    ensures name == "sys.version_info" && key.Some? && key.value.IntKey? && !value.VInt? ==>
      r == Err(ParseError("an element of sys.version_info must be compared to an integer"))
    ensures name == "sys.version_info" && (key.None? || key.value.SliceKey?) && !IsIntTuple(value) ==>
      r == Err(ParseError("sys.version_info must be compared to a tuple of integers"))
    ensures name == "sys.platform" && !value.VStr? ==>
      r == Err(ParseError("sys.platform must be compared to a string"))
    ensures name == "sys.platform" && value.VStr? && op != Eq && op != Ne ==>
      r == Err(ParseError("sys.platform must be compared using == or !="))
    ensures name == "sys.platform" && value.VStr? && op == Eq ==> r == Ok(platform == value.s)
    ensures name == "sys.platform" && value.VStr? && op == Ne ==> r == Ok(platform != value.s)
  {
    if name == "sys.version_info" then
      var k: Key := if key.Some? then key.value else SliceKey(None, None);
      match k
      case IntKey(i) =>
        if !value.VInt? then
          Err(ParseError("an element of sys.version_info must be compared to an integer"))
        else
          var actual := Index(version, i);
          if actual.None? then Err(ParseError("tuple index out of range"))
          else Ok(CompareInts(op, actual.value, value.i))
      case SliceKey(lo, hi) =>
        if !IsIntTuple(value) then
          Err(ParseError("sys.version_info must be compared to a tuple of integers"))
        else
          Ok(CompareTuples(op, ThreeTuple(Slice(version, lo, hi)), ThreeTuple(Ints(value.items))))
    else if name == "sys.platform" then
      if !value.VStr? then Err(ParseError("sys.platform must be compared to a string"))
      else if op != Eq && op != Ne then Err(ParseError("sys.platform must be compared using == or !="))
      else Ok(if op == Eq then platform == value.s else platform != value.s)
    else
      Err(ParseError(UnsupportedPrefix + name + "'."))
  }

  /** `_eval_condition`: `or` evaluates its right side only when the left is false. */
  function EvalCondition(version: seq<int>, platform: string, c: Condition): (r: Result<bool, Failure>)
    ensures c.Or? ==> (EvalCondition(version, platform, c.left) == Ok(true) ==> r == Ok(true))
    ensures c.Or? ==> (EvalCondition(version, platform, c.left) == Ok(false) ==> r == EvalCondition(version, platform, c.right))
    ensures c.Or? && EvalCondition(version, platform, c.left).Err? ==> r == EvalCondition(version, platform, c.left)
  {
    match c
    case Or(left, right) =>
      var a :- EvalCondition(version, platform, left);
      if a then Ok(true) else EvalCondition(version, platform, right)
    case Comparison(name, key, op, value) => EvalComparison(version, platform, name, key, op, value)
  }

  /**
   * The whole-tuple comparison `sys.version_info >= (major, minor)` on a
   * three-element version holds exactly when the version's major number
   * is larger, or equal with a minor number at least as large.
   */
  lemma VersionAtLeast(version: seq<int>, platform: string, major: int, minor: int)
    requires |version| == 3 && version[2] >= 0
    ensures EvalComparison(version, platform, "sys.version_info", None, Ge, VTuple([VInt(major), VInt(minor)]))
      == Ok(version[0] > major || (version[0] == major && version[1] >= minor))
  {
    var value := VTuple([VInt(major), VInt(minor)]);
    assert IsIntTuple(value);
    var x := ThreeTuple(Slice(version, None, None));
    var y := ThreeTuple(Ints(value.items));
    assert x == version;
    assert y == [major, minor, 0];
    assert x[1..] == [version[1], version[2]] && y[1..] == [minor, 0];
    assert x[1..][1..] == [version[2]] && y[1..][1..] == [0];
    assert LexLess(y[1..][1..], x[1..][1..]) || x[1..][1..] == y[1..][1..];
    assert LexLess(y[1..], x[1..]) || x[1..] == y[1..] <==> version[1] >= minor;
  }

  /**
   * An integer key reads one element: `sys.version_info[i] op v` compares
   * that element of the version, and an index outside the version raises.
   */
  lemma VersionElement(version: seq<int>, platform: string, i: int, op: Op, v: int)
    ensures EvalComparison(version, platform, "sys.version_info", Some(IntKey(i)), op, VInt(v)) ==
      if 0 <= i < |version| then Ok(CompareInts(op, version[i], v))
      else if -|version| <= i < 0 then Ok(CompareInts(op, version[|version| + i], v))
      else Err(ParseError("tuple index out of range"))
  {
  }

  /**
   * A slice that keeps the first `k` components compares the version's
   * prefix padded with zeros: `sys.version_info[:2] == (3, 6)` asks for
   * major 3 and minor 6.
   */
  lemma VersionPrefixEquals(version: seq<int>, platform: string, k: nat, expected: seq<int>)
    requires k <= |version| && |expected| == k && k <= 3
    ensures EvalComparison(version, platform, "sys.version_info", Some(SliceKey(None, Some(k))), Eq,
                           VTuple(seq(k, j requires 0 <= j < k => VInt(expected[j]))))
      == Ok(version[..k] == expected)
  {
    var value := VTuple(seq(k, j requires 0 <= j < k => VInt(expected[j])));
    assert IsIntTuple(value);
    assert Ints(value.items) == expected;
    var x := Slice(version, None, Some(k));
    assert x == version[..k];
    if ThreeTuple(x) == ThreeTuple(expected) {
      assert forall j :: 0 <= j < k ==> x[j] == ThreeTuple(x)[j] == ThreeTuple(expected)[j] == expected[j];
    }
  }
}
