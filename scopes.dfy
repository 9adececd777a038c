/**
 * Visitors whose state changes only when they enter or leave a scope (a
 * unit, a class): between scope boundaries such a visitor behaves like a
 * stateless rewrite whose hooks read the state fixed at the boundary.
 */
module Scopes {
  import opened Wrappers
  import opened Pytd
  import opened Visit
  import opened Traversal

  /** The Visit hooks of `v` in state `s`, as a stateless hook. */
  function VisitAt<S>(v: Visitor<S>, s: S): Node -> Result<Node, PassError> {
    (m: Node) => match v.visit(s, m)
      case Ok(r) => Ok(r.1)
      case Err(e) => Err(e)
  }

  /** Outside the scope kinds, `v` keeps state `s` unchanged in all three hooks. */
  ghost predicate Frozen<S>(v: Visitor<S>, s: S, scopes: set<Kind>) {
    (forall m :: KindOf(m) in v.enterKinds && KindOf(m) !in scopes ==> v.enter(s, m) == Ok(s))
    && (forall m :: KindOf(m) in v.leaveKinds && KindOf(m) !in scopes ==> v.leave(s, m) == s)
    && (forall m :: KindOf(m) in v.visitKinds && v.visit(s, m).Ok? ==> v.visit(s, m).value.0 == s)
  }

  /** Rebuilding and visiting a node in a frozen state is what the stateless map does there. */
  lemma FrozenFinish<S>(v: Visitor<S>, s: S, scopes: set<Kind>, n: Node, cs: seq<Node>)
    requires Frozen(v, s, scopes) && KindOf(n) !in scopes
    ensures RwFinish(v, n, s, cs) == WithState(
      var m :- Rebuild(n, cs); if KindOf(n) in v.visitKinds then VisitAt(v, s)(m) else Ok(m), s)
  {
    var r := Rebuild(n, cs);
    if r.Ok? && KindOf(n) in v.visitKinds {
      var w := v.visit(s, r.value);
      if w.Ok? {
        assert w.value.0 == s;
      }
    }
  }

  /** In a frozen state, a tree without scope nodes is rewritten as the stateless map rewrites it. */
  lemma {:induction false} FrozenIsMap<S>(v: Visitor<S>, s: S, scopes: set<Kind>, n: Node)
    requires Frozen(v, s, scopes) && !OccursIn(scopes, n)
    ensures Rw(v, s, n, false) == WithState(MapNodes(VisitAt(v, s), v.visitKinds, n), s)
    decreases NodeSize(n), 1
  {
    ChildrenSmaller(n);
    FrozenIsMapList(v, s, scopes, Children(n), n);
    if KindOf(n) in v.enterKinds {
      assert v.enter(s, n) == Ok(s);
    }
    var l := MapNodesList(VisitAt(v, s), v.visitKinds, Children(n), n);
    assert RwList(v, s, Children(n), false, n) == WithState(l, s);
    if l.Ok? {
      FrozenFinish(v, s, scopes, n, l.value);
      assert Rw(v, s, n, false) == RwFinish(v, n, s, l.value);
    }
  }

  lemma {:induction false} FrozenIsMapList<S>(v: Visitor<S>, s: S, scopes: set<Kind>, cs: seq<Node>, parent: Node)
    requires Frozen(v, s, scopes)
    requires forall c :: c in cs ==> NodeSize(c) < NodeSize(parent) && !OccursIn(scopes, c)
    ensures RwList(v, s, cs, false, parent) == WithState(MapNodesList(VisitAt(v, s), v.visitKinds, cs, parent), s)
    decreases NodeSize(parent), 0, |cs|
  {
    if cs != [] {
      FrozenIsMap(v, s, scopes, cs[0]);
      FrozenIsMapList(v, s, scopes, cs[1..], parent);
    }
  }

  /**
   * A scope node with no scope beneath it: Enter fixes the state, the
   * subtree (the node included) is rewritten by the stateless map in that
   * state, and Leave gives the state the traversal continues with.
   */
  lemma ScopeIsMap<S>(v: Visitor<S>, s: S, scopes: set<Kind>, n: Node)
    requires KindOf(n) in scopes && KindOf(n) in v.enterKinds
    requires forall c :: c in Children(n) ==> !OccursIn(scopes, c)
    requires v.enter(s, n).Ok? ==> Frozen(v, v.enter(s, n).value, scopes)
    ensures Rw(v, s, n, false) ==
      (var s1 :- v.enter(s, n);
       var r :- MapNodes(VisitAt(v, s1), v.visitKinds, n);
       Ok((if KindOf(n) in v.leaveKinds then v.leave(s1, n) else s1, r)))
  {
    if v.enter(s, n).Ok? {
      var s1 := v.enter(s, n).value;
      ChildrenSmaller(n);
      FrozenIsMapList(v, s1, scopes, Children(n), n);
      var l := MapNodesList(VisitAt(v, s1), v.visitKinds, Children(n), n);
      if l.Ok? {
        assert Rw(v, s, n, false) == RwFinish(v, n, s1, l.value);
        var m := Rebuild(n, l.value);
        if m.Ok? && KindOf(n) in v.visitKinds {
          var w := v.visit(s1, m.value);
          if w.Ok? {
            assert w.value.0 == s1;
          }
        }
      }
    }
  }

  /** The map at a node: the node rebuilt from the mapped children, handed to the hook if its kind is hooked. */
  lemma MapNodesRoot(h: Node -> Result<Node, PassError>, ks: set<Kind>, n: Node)
    requires MapNodes(h, ks, n).Ok?
    ensures exists cs :: (WithChildren(n, cs).Some?
      && MapNodes(h, ks, n) == (if KindOf(n) in ks then h(WithChildren(n, cs).value) else Ok(WithChildren(n, cs).value)))
  {
    ChildrenSmaller(n);
    var cs := MapNodesList(h, ks, Children(n), n).value;
    assert WithChildren(n, cs).Some?;
  }

  /**
   * The children of a scope node, each rewritten in the state its own
   * traversal runs in: scope children in `inner`, the others in `s`.
   */
  function LevelMap<S>(v: Visitor<S>, s: S, inner: S, scopes: set<Kind>, cs: seq<Node>): Result<seq<Node>, PassError>
    decreases |cs|
  {
    if cs == [] then Ok([])
    else
      var a :- MapNodes(VisitAt(v, if KindOf(cs[0]) in scopes then inner else s), v.visitKinds, cs[0]);
      var b :- LevelMap(v, s, inner, scopes, cs[1..]);
      Ok([a] + b)
  }

  /**
   * One level of nested scopes: every scope child is entered in state `inner`
   * and left in `s` again, and no scope lies beneath it or beneath any other
   * child.  The children are then rewritten one by one, as `LevelMap` says.
   */
  lemma {:induction false} LevelList<S>(v: Visitor<S>, s: S, inner: S, scopes: set<Kind>, cs: seq<Node>, parent: Node)
    requires Frozen(v, s, scopes) && Frozen(v, inner, scopes)
    requires forall c :: c in cs ==> NodeSize(c) < NodeSize(parent)
    requires forall c :: c in cs && KindOf(c) !in scopes ==> !OccursIn(scopes, c)
    requires forall c :: c in cs && KindOf(c) in scopes ==>
      KindOf(c) in v.enterKinds && v.enter(s, c) == Ok(inner) && KindOf(c) in v.leaveKinds && v.leave(inner, c) == s
      && forall d :: d in Children(c) ==> !OccursIn(scopes, d)
    ensures RwList(v, s, cs, false, parent) == WithState(LevelMap(v, s, inner, scopes, cs), s)
    decreases |cs|
  {
    if cs != [] {
      var c := cs[0];
      if KindOf(c) in scopes {
        ScopeIsMap(v, s, scopes, c);
      } else {
        FrozenIsMap(v, s, scopes, c);
      }
      LevelList(v, s, inner, scopes, cs[1..], parent);
    }
  }

  lemma {:induction false} LevelMapLength<S>(v: Visitor<S>, s: S, inner: S, scopes: set<Kind>, cs: seq<Node>)
    requires LevelMap(v, s, inner, scopes, cs).Ok?
    ensures |LevelMap(v, s, inner, scopes, cs).value| == |cs|
    decreases |cs|
  {
    if cs != [] {
      LevelMapLength(v, s, inner, scopes, cs[1..]);
    }
  }

  /** A successful level map maps each child on its own. */
  lemma {:induction false} LevelMapAt<S>(v: Visitor<S>, s: S, inner: S, scopes: set<Kind>, cs: seq<Node>, i: nat)
    requires LevelMap(v, s, inner, scopes, cs).Ok? && i < |cs|
    ensures |LevelMap(v, s, inner, scopes, cs).value| == |cs|
    ensures MapNodes(VisitAt(v, if KindOf(cs[i]) in scopes then inner else s), v.visitKinds, cs[i])
      == Ok(LevelMap(v, s, inner, scopes, cs).value[i])
    decreases |cs|
  {
    LevelMapLength(v, s, inner, scopes, cs);
    var h := VisitAt(v, if KindOf(cs[0]) in scopes then inner else s);
    var a := MapNodes(h, v.visitKinds, cs[0]);
    var b := LevelMap(v, s, inner, scopes, cs[1..]);
    assert a.Ok? && b.Ok? && LevelMap(v, s, inner, scopes, cs).value == [a.value] + b.value;
    if i > 0 {
      LevelMapAt(v, s, inner, scopes, cs[1..], i - 1);
    }
  }

  /** A failed level map fails with the exception of one of the children's maps. */
  lemma {:induction false} LevelMapErr<S>(v: Visitor<S>, s: S, inner: S, scopes: set<Kind>, cs: seq<Node>)
    requires LevelMap(v, s, inner, scopes, cs).Err?
    ensures exists i :: (0 <= i < |cs| && MapNodes(VisitAt(v, if KindOf(cs[i]) in scopes then inner else s), v.visitKinds, cs[i])
      == Err(LevelMap(v, s, inner, scopes, cs).error))
    decreases |cs|
  {
    var a := MapNodes(VisitAt(v, if KindOf(cs[0]) in scopes then inner else s), v.visitKinds, cs[0]);
    if a.Ok? {
      LevelMapErr(v, s, inner, scopes, cs[1..]);
      var i :| 0 <= i < |cs[1..]| && MapNodes(VisitAt(v, if KindOf(cs[1..][i]) in scopes then inner else s), v.visitKinds, cs[1..][i])
        == Err(LevelMap(v, s, inner, scopes, cs[1..]).error);
      assert cs[1..][i] == cs[i + 1];
    }
  }

  /** The level map succeeds iff every child's map does. */
  lemma {:induction false} LevelMapOk<S>(v: Visitor<S>, s: S, inner: S, scopes: set<Kind>, cs: seq<Node>)
    ensures LevelMap(v, s, inner, scopes, cs).Ok? <==>
      forall i :: 0 <= i < |cs| ==> MapNodes(VisitAt(v, if KindOf(cs[i]) in scopes then inner else s), v.visitKinds, cs[i]).Ok?
    decreases |cs|
  {
    if cs != [] {
      LevelMapOk(v, s, inner, scopes, cs[1..]);
      assert forall i :: 1 <= i < |cs| ==> cs[i] == cs[1..][i - 1];
    }
  }

  /**
   * A map whose hook raises only at leaves marked bad succeeds on a tree
   * without bad leaves, provided the hook keeps categories.
   */
  lemma {:induction false} MapNodesOkUnless(h: Node -> Result<Node, PassError>, ks: set<Kind>, bad: Node -> bool, n: Node)
    requires forall m :: h(m).Ok? ==> SameCategory(h(m).value, m)
    requires forall m :: h(m).Err? ==> KindOf(m) in LeafKinds && bad(m)
    requires forall m :: m in Preorder(n) ==> !bad(m)
    ensures MapNodes(h, ks, n).Ok? && SameCategory(MapNodes(h, ks, n).value, n)
    decreases NodeSize(n), 1
  {
    ChildrenSmaller(n);
    ChildPreorders(n);
    InOwnPreorder(n);
    MapNodesListOkUnless(h, ks, bad, Children(n), n, n);
    var cs := MapNodesList(h, ks, Children(n), n).value;
    RebuildFits(n, cs);
    var m := WithChildren(n, cs).value;
    if KindOf(n) in ks && KindOf(n) in LeafKinds {
      LeafNoChildren(n);
      assert m == n;
    }
  }

  lemma {:induction false} MapNodesListOkUnless(h: Node -> Result<Node, PassError>, ks: set<Kind>, bad: Node -> bool,
                                                cs: seq<Node>, parent: Node, root: Node)
    requires forall m :: h(m).Ok? ==> SameCategory(h(m).value, m)
    requires forall m :: h(m).Err? ==> KindOf(m) in LeafKinds && bad(m)
    requires forall c :: c in cs ==> NodeSize(c) < NodeSize(parent)
    requires forall c, m :: c in cs && m in Preorder(c) ==> m in Preorder(root)
    requires forall m :: m in Preorder(root) ==> !bad(m)
    ensures MapNodesList(h, ks, cs, parent).Ok? && SameCategories(MapNodesList(h, ks, cs, parent).value, cs)
    decreases NodeSize(parent), 0, |cs|
  {
    if cs != [] {
      MapNodesOkUnless(h, ks, bad, cs[0]);
      MapNodesListOkUnless(h, ks, bad, cs[1..], parent, root);
      var r := MapNodesList(h, ks, cs, parent).value;
      assert r[0] == MapNodes(h, ks, cs[0]).value && r[1..] == MapNodesList(h, ks, cs[1..], parent).value;
    }
  }

  /** A map fails on a tree holding a leaf at which the hook raises. */
  lemma {:induction false} MapNodesFails(h: Node -> Result<Node, PassError>, ks: set<Kind>, bad: Node -> bool, n: Node)
    requires forall m :: bad(m) ==> KindOf(m) in ks && KindOf(m) in LeafKinds && h(m).Err?
    requires exists m :: m in Preorder(n) && bad(m)
    ensures MapNodes(h, ks, n).Err?
    decreases NodeSize(n), 1
  {
    ChildrenSmaller(n);
    var m :| m in Preorder(n) && bad(m);
    if m == n {
      MapLeaf(h, ks, n);
    } else {
      PreorderListMembers(Children(n), n, m);
      var c :| c in Children(n) && m in Preorder(c);
      MapNodesListFails(h, ks, bad, Children(n), n, c);
    }
  }

  lemma {:induction false} MapNodesListFails(h: Node -> Result<Node, PassError>, ks: set<Kind>, bad: Node -> bool,
                                             cs: seq<Node>, parent: Node, c: Node)
    requires forall m :: bad(m) ==> KindOf(m) in ks && KindOf(m) in LeafKinds && h(m).Err?
    requires forall x :: x in cs ==> NodeSize(x) < NodeSize(parent)
    requires c in cs && exists m :: m in Preorder(c) && bad(m)
    ensures MapNodesList(h, ks, cs, parent).Err?
    decreases NodeSize(parent), 0, |cs|
  {
    if cs[0] == c {
      MapNodesFails(h, ks, bad, c);
    } else if MapNodes(h, ks, cs[0]).Ok? {
      MapNodesListFails(h, ks, bad, cs[1..], parent, c);
    }
  }
}
