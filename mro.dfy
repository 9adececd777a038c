/**
 * MergeSequences: the C3 merge that pytype uses for method resolution
 * orders and for class templates.  The merge emits every element of the
 * input sequences once, keeping each input's order, and fails (the source
 * raises ValueError) when no such order exists.  "Singleton" elements may
 * take part in cycles: they are emitted as soon as they reach a head.
 */
module Mro {
  import opened Wrappers

  predicate NoDup<T(==,!new)>(s: seq<T>) {
    forall i, j :: 0 <= i < j < |s| ==> s[i] != s[j]
  }

  predicate AllNoDup<T(==,!new)>(seqs: seq<seq<T>>) {
    forall k :: 0 <= k < |seqs| ==> NoDup(seqs[k])
  }

  /** `x` occurs in `l` somewhere before `y`. */
  predicate Before<T(==,!new)>(l: seq<T>, x: T, y: T) {
    exists a, b :: 0 <= a < b < |l| && l[a] == x && l[b] == y
  }

  predicate InAny<T(==,!new)>(seqs: seq<seq<T>>, x: T) {
    exists k :: 0 <= k < |seqs| && x in seqs[k]
  }

  /**
   * `l` keeps the order of every input sequence, except that nothing is
   * demanded of what precedes a singleton element.
   */
  predicate Respects<T(==,!new)>(l: seq<T>, seqs: seq<seq<T>>, singleton: T -> bool) {
    forall k, i, j :: 0 <= k < |seqs| && 0 <= i < j < |seqs[k]| && !singleton(seqs[k][j]) ==>
      Before(l, seqs[k][i], seqs[k][j])
  }

  /** A valid merge: every input element exactly once, nothing else, input orders kept. */
  ghost predicate IsMerge<T(!new)>(l: seq<T>, seqs: seq<seq<T>>, singleton: T -> bool) {
    NoDup(l)
    && (forall x :: x in l <==> InAny(seqs, x))
    && Respects(l, seqs, singleton)
  }

  /** The elements of `s` other than `x`, in order. */
  function Without<T(==,!new)>(s: seq<T>, x: T): (r: seq<T>)
    ensures forall y :: y in r <==> y in s && y != x
    ensures |r| <= |s| && (x in s ==> |r| < |s|)
  {
    if s == [] then [] else (if s[0] == x then [] else [s[0]]) + Without(s[1..], x)
  }

  /** The elements of `s` that do not occur in `r`, in order. */
  function Remove<T(==,!new)>(s: seq<T>, r: seq<T>): (t: seq<T>)
    ensures forall y :: y in t <==> y in s && y !in r
  {
    if s == [] then [] else (if s[0] in r then [] else [s[0]]) + Remove(s[1..], r)
  }

  /** Every sequence of `cur` with `c` removed. */
  function WithoutAll<T(==,!new)>(cur: seq<seq<T>>, c: T): (r: seq<seq<T>>)
    ensures |r| == |cur| && forall k :: 0 <= k < |cur| ==> r[k] == Without(cur[k], c)
  {
    seq(|cur|, k requires 0 <= k < |cur| => Without(cur[k], c))
  }

  function TotalLen<T(==,!new)>(seqs: seq<seq<T>>): nat {
    if seqs == [] then 0 else |seqs[0]| + TotalLen(seqs[1..])
  }

  /** The head of `cur[k]` may not be emitted: it is not a singleton and sits in another sequence's tail. */
  predicate Blocked<T(==,!new)>(cur: seq<seq<T>>, k: int, singleton: T -> bool)
    requires 0 <= k < |cur| && cur[k] != []
  {
    !singleton(cur[k][0]) && exists m :: 0 <= m < |cur| && m != k && cur[m] != [] && cur[k][0] in cur[m][1..]
  }

  // ---------------------------------------------------------------------
  // Facts about Without and Remove

  lemma {:induction false} RemoveSnoc<T(!new)>(s: seq<T>, r: seq<T>, c: T)
    ensures Remove(s, r + [c]) == Without(Remove(s, r), c)
  {
    if s != [] {
      RemoveSnoc(s[1..], r, c);
      var rest := Remove(s[1..], r);
      if s[0] in r {
        assert Remove(s, r) == rest;
      } else {
        assert Remove(s, r) == [s[0]] + rest;
        assert ([s[0]] + rest)[1..] == rest;
      }
    }
  }

  lemma {:induction false} RemoveNoDup<T(!new)>(s: seq<T>, r: seq<T>)
    requires NoDup(s)
    ensures NoDup(Remove(s, r))
  {
    if s != [] {
      assert NoDup(s[1..]) by {
        forall i, j | 0 <= i < j < |s[1..]| ensures s[1..][i] != s[1..][j] {
          assert s[1..][i] == s[i + 1] && s[1..][j] == s[j + 1];
        }
      }
      RemoveNoDup(s[1..], r);
      var rest := Remove(s[1..], r);
      if s[0] !in r {
        assert s[0] !in rest;
        var t := [s[0]] + rest;
        forall i, j | 0 <= i < j < |t| ensures t[i] != t[j] {
          if i == 0 { assert t[j] == rest[j - 1]; } else { assert t[i] == rest[i - 1] && t[j] == rest[j - 1]; }
        }
      }
    }
  }

  /** Two elements that survive removal keep their relative order. */
  lemma {:induction false} RemoveOrder<T(!new)>(s: seq<T>, r: seq<T>, i: int, j: int)
    requires 0 <= i < j < |s| && s[i] !in r && s[j] !in r
    ensures exists p, q :: 0 <= p < q < |Remove(s, r)| && Remove(s, r)[p] == s[i] && Remove(s, r)[q] == s[j]
  {
    var rest := Remove(s[1..], r);
    if i == 0 {
      assert s[j] == s[1..][j - 1];
      assert s[j] in rest;
      var q :| 0 <= q < |rest| && rest[q] == s[j];
      assert Remove(s, r) == [s[0]] + rest;
      assert Remove(s, r)[0] == s[i] && Remove(s, r)[q + 1] == s[j];
    } else {
      assert s[i] == s[1..][i - 1] && s[j] == s[1..][j - 1];
      RemoveOrder(s[1..], r, i - 1, j - 1);
      var p, q :| 0 <= p < q < |rest| && rest[p] == s[i] && rest[q] == s[j];
      if s[0] in r {
        assert Remove(s, r) == rest;
      } else {
        assert Remove(s, r) == [s[0]] + rest;
        assert Remove(s, r)[p + 1] == s[i] && Remove(s, r)[q + 1] == s[j];
      }
    }
  }

  /** Any two positions of the removal's result come from two positions of `s` in the same order. */
  lemma {:induction false} RemoveOrderBack<T(!new)>(s: seq<T>, r: seq<T>, p: int, q: int)
    requires 0 <= p < q < |Remove(s, r)|
    ensures exists i, j :: 0 <= i < j < |s| && s[i] == Remove(s, r)[p] && s[j] == Remove(s, r)[q]
  {
    var rest := Remove(s[1..], r);
    if s[0] in r {
      assert Remove(s, r) == rest;
      RemoveOrderBack(s[1..], r, p, q);
      var i, j :| 0 <= i < j < |s[1..]| && s[1..][i] == rest[p] && s[1..][j] == rest[q];
      assert s[i + 1] == rest[p] && s[j + 1] == rest[q];
    } else {
      assert Remove(s, r) == [s[0]] + rest;
      if p == 0 {
        var y := Remove(s, r)[q];
        assert y == rest[q - 1];
        assert y in s[1..];
        var j :| 0 <= j < |s[1..]| && s[1..][j] == y;
        assert s[0] == Remove(s, r)[p] && s[j + 1] == y;
      } else {
        RemoveOrderBack(s[1..], r, p - 1, q - 1);
        var i, j :| 0 <= i < j < |s[1..]| && s[1..][i] == rest[p - 1] && s[1..][j] == rest[q - 1];
        assert s[i + 1] == Remove(s, r)[p] && s[j + 1] == Remove(s, r)[q];
      }
    }
  }

  lemma RemoveNothing<T(!new)>(s: seq<T>)
    ensures Remove(s, []) == s
  {
    if s != [] {
      RemoveNothing(s[1..]);
      assert [s[0]] + s[1..] == s;
    }
  }

  lemma WithoutAbsent<T(!new)>(s: seq<T>, x: T)
    requires x !in s
    ensures Without(s, x) == s
  {
    if s != [] {
      WithoutAbsent(s[1..], x);
      assert [s[0]] + s[1..] == s;
    }
  }

  lemma DropHeadIsWithout<T(!new)>(s: seq<T>)
    requires s != [] && NoDup(s)
    ensures s[1..] == Without(s, s[0])
  {
    assert s[0] !in s[1..] by {
      forall j | 0 <= j < |s[1..]| ensures s[1..][j] != s[0] { assert s[1..][j] == s[j + 1]; }
    }
    WithoutAbsent(s[1..], s[0]);
  }

  lemma {:induction false} TotalLenShrinks<T(!new)>(a: seq<seq<T>>, b: seq<seq<T>>, i: int)
    requires |a| == |b| && 0 <= i < |a|
    requires forall k :: 0 <= k < |a| ==> |b[k]| <= |a[k]|
    requires |b[i]| < |a[i]|
    ensures TotalLen(b) < TotalLen(a)
  {
    if i == 0 {
      TotalLenMono(a[1..], b[1..]);
    } else {
      TotalLenShrinks(a[1..], b[1..], i - 1);
    }
  }

  lemma {:induction false} TotalLenMono<T(!new)>(a: seq<seq<T>>, b: seq<seq<T>>)
    requires |a| == |b|
    requires forall k :: 0 <= k < |a| ==> |b[k]| <= |a[k]|
    ensures TotalLen(b) <= TotalLen(a)
  {
    if a != [] {
      TotalLenMono(a[1..], b[1..]);
    }
  }

  // ---------------------------------------------------------------------
  // The loop invariant

  /**
   * While merging duplicate-free inputs: each remaining sequence is its
   * input with the emitted elements removed, and what has been emitted
   * so far is duplicate-free, drawn from the inputs and in input order.
   */
  predicate MergeInv<T(==,!new)>(seqs: seq<seq<T>>, cur: seq<seq<T>>, res: seq<T>, singleton: T -> bool) {
    |cur| == |seqs|
    && (forall k :: 0 <= k < |seqs| ==> cur[k] == Remove(seqs[k], res))
    && NoDup(res)
    && (forall x :: x in res ==> InAny(seqs, x))
    && (forall k, i, j ::
          0 <= k < |seqs| && 0 <= i < j < |seqs[k]| && !singleton(seqs[k][j]) && seqs[k][j] in res
          ==> Before(res, seqs[k][i], seqs[k][j]))
  }

  /** Emitting an element that no remaining sequence holds in front of a non-singleton keeps the invariant. */
  lemma MergeStep<T(!new)>(seqs: seq<seq<T>>, cur: seq<seq<T>>, res: seq<T>, singleton: T -> bool, i: int)
    requires AllNoDup(seqs) && MergeInv(seqs, cur, res, singleton)
    requires 0 <= i < |cur| && cur[i] != []
    requires singleton(cur[i][0]) || !Blocked(cur, i, singleton)
    ensures MergeInv(seqs, WithoutAll(cur, cur[i][0]), res + [cur[i][0]], singleton)
  {
    var c := cur[i][0];
    var next := WithoutAll(cur, c);
    var res' := res + [c];
    assert c in seqs[i] && c !in res;
    forall k | 0 <= k < |seqs| ensures next[k] == Remove(seqs[k], res') {
      RemoveSnoc(seqs[k], res, c);
    }
    assert NoDup(res') by {
      forall a, b | 0 <= a < b < |res'| ensures res'[a] != res'[b] {
        if b == |res| { assert res'[a] == res[a]; } else { assert res'[a] == res[a] && res'[b] == res[b]; }
      }
    }
    forall k, i0, j | 0 <= k < |seqs| && 0 <= i0 < j < |seqs[k]| && !singleton(seqs[k][j]) && seqs[k][j] in res'
      ensures Before(res', seqs[k][i0], seqs[k][j])
    {
      if seqs[k][j] in res {
        var a, b :| 0 <= a < b < |res| && res[a] == seqs[k][i0] && res[b] == seqs[k][j];
        assert res'[a] == seqs[k][i0] && res'[b] == seqs[k][j];
      } else {
        assert seqs[k][j] == c;
        PredecessorEmitted(seqs, cur, res, singleton, i, k, i0, j);
        var a :| 0 <= a < |res| && res[a] == seqs[k][i0];
        assert res'[a] == seqs[k][i0] && res'[|res|] == c;
      }
    }
  }

  /** Whatever precedes an emittable non-singleton head in some input has been emitted already. */
  lemma PredecessorEmitted<T(!new)>(seqs: seq<seq<T>>, cur: seq<seq<T>>, res: seq<T>, singleton: T -> bool,
                                    i: int, k: int, i0: int, j: int)
    requires AllNoDup(seqs) && MergeInv(seqs, cur, res, singleton)
    requires 0 <= i < |cur| && cur[i] != [] && !singleton(cur[i][0]) && !Blocked(cur, i, singleton)
    requires 0 <= k < |seqs| && 0 <= i0 < j < |seqs[k]| && seqs[k][j] == cur[i][0]
    ensures seqs[k][i0] in res
  {
    var c := cur[i][0];
    if seqs[k][i0] !in res {
      assert c !in res;
      RemoveOrder(seqs[k], res, i0, j);
      var p, q :| 0 <= p < q < |cur[k]| && cur[k][p] == seqs[k][i0] && cur[k][q] == c;
      if k == i {
        RemoveNoDup(seqs[k], res);
        assert false;
      } else {
        assert false;
      }
    }
  }

  /** Every element still waiting in some sequence is placed in a valid merge after what precedes it there. */
  lemma CurRespects<T(!new)>(seqs: seq<seq<T>>, cur: seq<seq<T>>, res: seq<T>, singleton: T -> bool, l: seq<T>,
                             m: int, q: int)
    requires MergeInv(seqs, cur, res, singleton) && IsMerge(l, seqs, singleton)
    requires 0 <= m < |cur| && 0 < q < |cur[m]| && !singleton(cur[m][q])
    ensures Before(l, cur[m][0], cur[m][q])
  {
    RemoveOrderBack(seqs[m], res, 0, q);
    var i, j :| 0 <= i < j < |seqs[m]| && seqs[m][i] == cur[m][0] && seqs[m][j] == cur[m][q];
  }

  /** When every remaining head is blocked, no valid merge of the inputs exists. */
  lemma StuckNoMerge<T(!new)>(seqs: seq<seq<T>>, cur: seq<seq<T>>, res: seq<T>, singleton: T -> bool, l: seq<T>)
    requires AllNoDup(seqs) && MergeInv(seqs, cur, res, singleton)
    requires exists k :: 0 <= k < |cur| && cur[k] != []
    requires forall k :: 0 <= k < |cur| && cur[k] != [] ==> Blocked(cur, k, singleton)
    ensures !IsMerge(l, seqs, singleton)
  {
    if IsMerge(l, seqs, singleton) {
      var k0 :| 0 <= k0 < |cur| && cur[k0] != [];
      var p0 := HeadInMerge(seqs, cur, res, singleton, l, k0);
      var p := LeastHead(l, cur, p0);
      var k :| 0 <= k < |cur| && cur[k] != [] && cur[k][0] == l[p];
      var m, q := BlockedWitness(cur, k, singleton);
      CurRespects(seqs, cur, res, singleton, l, m, q);
      var a, b :| 0 <= a < b < |l| && l[a] == cur[m][0] && l[b] == cur[m][q];
      assert b == p;
      assert IsHeadAt(l, cur, a);
    }
  }

  lemma HeadInMerge<T(!new)>(seqs: seq<seq<T>>, cur: seq<seq<T>>, res: seq<T>, singleton: T -> bool, l: seq<T>, k: int)
    returns (p: int)
    requires MergeInv(seqs, cur, res, singleton) && IsMerge(l, seqs, singleton)
    requires 0 <= k < |cur| && cur[k] != []
    ensures 0 <= p < |l| && l[p] == cur[k][0] && IsHeadAt(l, cur, p)
  {
    assert cur[k][0] in seqs[k];
    assert InAny(seqs, cur[k][0]);
    p :| 0 <= p < |l| && l[p] == cur[k][0];
  }

  lemma BlockedWitness<T(!new)>(cur: seq<seq<T>>, k: int, singleton: T -> bool) returns (m: int, q: int)
    requires 0 <= k < |cur| && cur[k] != [] && Blocked(cur, k, singleton)
    ensures 0 <= m < |cur| && m != k && 0 < q < |cur[m]| && cur[m][q] == cur[k][0] && !singleton(cur[m][q])
  {
    m :| 0 <= m < |cur| && m != k && cur[m] != [] && cur[k][0] in cur[m][1..];
    var j :| 0 <= j < |cur[m][1..]| && cur[m][1..][j] == cur[k][0];
    q := j + 1;
  }

  predicate IsHeadAt<T(==,!new)>(l: seq<T>, cur: seq<seq<T>>, p: int) {
    0 <= p < |l| && exists k :: 0 <= k < |cur| && cur[k] != [] && cur[k][0] == l[p]
  }

  lemma {:induction false} LeastHead<T(!new)>(l: seq<T>, cur: seq<seq<T>>, p0: int) returns (p: int)
    requires IsHeadAt(l, cur, p0)
    ensures 0 <= p <= p0 && IsHeadAt(l, cur, p) && forall q :: 0 <= q < p ==> !IsHeadAt(l, cur, q)
    decreases p0
  {
    if exists q :: 0 <= q < p0 && IsHeadAt(l, cur, q) {
      var q :| 0 <= q < p0 && IsHeadAt(l, cur, q);
      p := LeastHead(l, cur, q);
    } else {
      p := p0;
    }
  }

  /** When nothing remains, what was emitted is a valid merge. */
  lemma DoneIsMerge<T(!new)>(seqs: seq<seq<T>>, cur: seq<seq<T>>, res: seq<T>, singleton: T -> bool)
    requires MergeInv(seqs, cur, res, singleton)
    requires forall k :: 0 <= k < |cur| ==> cur[k] == []
    ensures IsMerge(res, seqs, singleton)
  {
    forall k, x | 0 <= k < |seqs| && x in seqs[k] ensures x in res {
      assert x !in Remove(seqs[k], res);
    }
    forall x | InAny(seqs, x) ensures x in res {
      var k :| 0 <= k < |seqs| && x in seqs[k];
    }
  }

  // ---------------------------------------------------------------------
  // The merge

  /** Remove the head of every sequence whose head is `c`. */
  method DropHeads<T(==,!new)>(cur: seq<seq<T>>, c: T) returns (next: seq<seq<T>>)
    ensures |next| == |cur|
    ensures forall k :: 0 <= k < |cur| ==>
      next[k] == if cur[k] != [] && cur[k][0] == c then cur[k][1..] else cur[k]
  {
    next := [];
    var k := 0;
    while k < |cur|
      invariant 0 <= k <= |cur| && |next| == k
      invariant forall m :: 0 <= m < k ==>
        next[m] == if cur[m] != [] && cur[m][0] == c then cur[m][1..] else cur[m]
    {
      if cur[k] != [] && cur[k][0] == c {
        next := next + [cur[k][1..]];
      } else {
        next := next + [cur[k]];
      }
      k := k + 1;
    }
  }

  /**
   * One pass of the candidate search: take the first head that is a
   * singleton or that no other sequence holds in its tail, emit it and
   * remove it from the sequences.
   */
  method PickCandidate<T(==,!new)>(cur: seq<seq<T>>, singleton: T -> bool) returns (pick: Option<T>, next: seq<seq<T>>)
    ensures pick.None? ==> forall k :: 0 <= k < |cur| && cur[k] != [] ==> Blocked(cur, k, singleton)
    ensures pick.Some? ==> exists i :: (0 <= i < |cur| && cur[i] != [] && cur[i][0] == pick.value
      && (singleton(pick.value) || !Blocked(cur, i, singleton)))
    ensures pick.Some? ==> |next| == |cur| && TotalLen(next) < TotalLen(cur)
    ensures pick.Some? ==> forall k, x :: 0 <= k < |cur| && x in next[k] ==> x in cur[k]
    ensures pick.Some? && AllNoDup(cur) ==> next == WithoutAll(cur, pick.value)
  {
    var i := 0;
    pick, next := None, cur;
    while i < |cur| && pick.None?
      invariant 0 <= i <= |cur|
      invariant pick.None? ==> forall k :: 0 <= k < i && cur[k] != [] ==> Blocked(cur, k, singleton)
      invariant pick.Some? ==> exists j :: (0 <= j < |cur| && cur[j] != [] && cur[j][0] == pick.value
        && (singleton(pick.value) || !Blocked(cur, j, singleton)))
      invariant pick.Some? ==> |next| == |cur| && TotalLen(next) < TotalLen(cur)
      invariant pick.Some? ==> forall k, x :: 0 <= k < |cur| && x in next[k] ==> x in cur[k]
      invariant pick.Some? && AllNoDup(cur) ==> next == WithoutAll(cur, pick.value)
    {
      if cur[i] != [] {
        var c := cur[i][0];
        if singleton(c) {
          // a special element: emit it and remove it everywhere
          next := WithoutAll(cur, c);
          pick := Some(c);
        } else if exists m :: 0 <= m < |cur| && m != i && cur[m] != [] && c in cur[m][1..] {
          // rejected candidate
        } else {
          next := DropHeads(cur, c);
          pick := Some(c);
          if AllNoDup(cur) {
            DropHeadsIsWithout(cur, c, i, singleton, next);
          }
        }
        if pick.Some? {
          TotalLenShrinks(cur, next, i);
        }
      }
      i := i + 1;
    }
  }

  lemma DropHeadsIsWithout<T(!new)>(cur: seq<seq<T>>, c: T, i: int, singleton: T -> bool, next: seq<seq<T>>)
    requires AllNoDup(cur) && 0 <= i < |cur| && cur[i] != [] && cur[i][0] == c
    requires !singleton(c) && !Blocked(cur, i, singleton)
    requires |next| == |cur|
    requires forall k :: 0 <= k < |cur| ==> next[k] == if cur[k] != [] && cur[k][0] == c then cur[k][1..] else cur[k]
    ensures next == WithoutAll(cur, c)
  {
    var w := WithoutAll(cur, c);
    forall k | 0 <= k < |cur| ensures next[k] == w[k] {
      if cur[k] != [] && cur[k][0] == c {
        DropHeadIsWithout(cur[k]);
      } else {
        WithoutAbsent(cur[k], c);
      }
    }
  }

  /**
   * Merge `seqs`.  `None` stands for the ValueError the source raises.  For
   * duplicate-free inputs the result is a valid merge, and the merge fails
   * exactly when no valid merge exists.
   */
  method MergeSequences<T(==,!new)>(seqs: seq<seq<T>>, singleton: T -> bool) returns (r: Option<seq<T>>)
    ensures r.Some? ==> forall x :: x in r.value ==> InAny(seqs, x)
    ensures AllNoDup(seqs) && r.Some? ==> IsMerge(r.value, seqs, singleton)
    ensures AllNoDup(seqs) && r.None? ==> forall l :: !IsMerge(l, seqs, singleton)
  {
    ghost var dupFree := AllNoDup(seqs);
    var cur := seqs;
    var res: seq<T> := [];
    if dupFree {
      forall k | 0 <= k < |seqs| ensures cur[k] == Remove(seqs[k], res) { RemoveNothing(seqs[k]); }
    }
    while exists k :: 0 <= k < |cur| && cur[k] != []
      invariant |cur| == |seqs|
      invariant forall x :: x in res ==> InAny(seqs, x)
      invariant forall k, x :: 0 <= k < |cur| && x in cur[k] ==> InAny(seqs, x)
      invariant dupFree ==> MergeInv(seqs, cur, res, singleton)
      decreases TotalLen(cur)
    {
      var pick, next := PickCandidate(cur, singleton);
      if pick.None? {
        if dupFree {
          forall l | true ensures !IsMerge(l, seqs, singleton) {
            StuckNoMerge(seqs, cur, res, singleton, l);
          }
        }
        return None;
      }
      if dupFree {
        var i :| 0 <= i < |cur| && cur[i] != [] && cur[i][0] == pick.value
          && (singleton(pick.value) || !Blocked(cur, i, singleton));
        CurNoDup(seqs, cur, res, singleton);
        MergeStep(seqs, cur, res, singleton, i);
      }
      res := res + [pick.value];
      cur := next;
    }
    if dupFree {
      DoneIsMerge(seqs, cur, res, singleton);
    }
    return Some(res);
  }

  lemma CurNoDup<T(!new)>(seqs: seq<seq<T>>, cur: seq<seq<T>>, res: seq<T>, singleton: T -> bool)
    requires AllNoDup(seqs) && MergeInv(seqs, cur, res, singleton)
    ensures AllNoDup(cur)
  {
    forall k | 0 <= k < |cur| ensures NoDup(cur[k]) { RemoveNoDup(seqs[k], res); }
  }
}
