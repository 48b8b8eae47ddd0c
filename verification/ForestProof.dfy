/** What splitting and closing do to a tree. */
module ForestProof {
  import opened Forest

  /** A sequence without the occurrences of `x`, in order. */
  function Removed(s: seq<Id>, x: Id): seq<Id> {
    if s == [] then [] else (if s[0] == x then [] else [s[0]]) + Removed(s[1..], x)
  }

  lemma {:induction false} RemovedConcat(a: seq<Id>, b: seq<Id>, x: Id)
    ensures Removed(a + b, x) == Removed(a, x) + Removed(b, x)
  {
    if a == [] {
      assert a + b == b;
    } else {
      assert (a + b)[1..] == a[1..] + b;
      RemovedConcat(a[1..], b, x);
    }
  }

  lemma {:induction false} RemovedAbsent(s: seq<Id>, x: Id)
    requires x !in s
    ensures Removed(s, x) == s
  {
    if s != [] {
      RemovedAbsent(s[1..], x);
    }
  }

  lemma {:induction false} OneLeaf(a: Id)
    ensures var ts := [Leaf(a)];
            && AllLeaves(ts) == [a] && AllIds(ts) == {a} && AllDistinct(ts)
            && AllShaped(ts, true) && AllShaped(ts, false)
  {
    var ts := [Leaf(a)];
    assert ts[1..] == [];
    assert AllDistinct(ts[1..]) && AllShaped(ts[1..], true) && AllShaped(ts[1..], false);
    assert Leaves(ts[0]) + [] == [a];
  }

  lemma {:induction false} TwoLeaves(a: Id, b: Id)
    ensures var ts := [Leaf(a), Leaf(b)];
            && AllLeaves(ts) == [a, b] && AllIds(ts) == {a, b} && (AllDistinct(ts) <==> a != b)
            && AllShaped(ts, true) && AllShaped(ts, false)
  {
    OneLeaf(a);
    OneLeaf(b);
    AllIdsConcat([Leaf(a)], [Leaf(b)]);
    AllShapedConcat([Leaf(a)], [Leaf(b)], true);
    AllShapedConcat([Leaf(a)], [Leaf(b)], false);
    assert [Leaf(a)] + [Leaf(b)] == [Leaf(a), Leaf(b)];
  }

  // ----- splitting -----

  /** Splitting adds one leaf and keeps the order of the others. */
  lemma {:induction false} SplitLeaves(t: Tree, source: Id, pane: Id, vertical: bool, splitId: Id)
    requires pane !in Leaves(t)
    ensures var t' := SplitLeaf(t, source, pane, vertical, splitId);
            && Removed(Leaves(t'), pane) == Leaves(t)
            && (source in Leaves(t) <==> pane in Leaves(t'))
    decreases t, 1
  {
    match t
    case Leaf(id) =>
      TwoLeaves(source, pane);
      assert [source, pane][1..] == [pane] && [pane][1..] == [];
    case Node(_, v, kids) =>
      if v == vertical && Leaf(source) in kids {
        LeafKid(kids, source);
        AllIdsConcat(kids, [Leaf(pane)]);
        OneLeaf(pane);
        RemovedConcat(AllLeaves(kids), [pane], pane);
        RemovedAbsent(AllLeaves(kids), pane);
        assert Removed([pane], pane) == [];
      } else {
        SplitAllLeaves(kids, source, pane, vertical, splitId);
      }
  }

  lemma {:induction false} SplitAllLeaves(ts: seq<Tree>, source: Id, pane: Id, vertical: bool, splitId: Id)
    requires pane !in AllLeaves(ts)
    ensures var ts' := SplitAll(ts, source, pane, vertical, splitId);
            && Removed(AllLeaves(ts'), pane) == AllLeaves(ts)
            && (source in AllLeaves(ts) <==> pane in AllLeaves(ts'))
    decreases ts, 0
  {
    if ts != [] {
      SplitLeaves(ts[0], source, pane, vertical, splitId);
      SplitAllLeaves(ts[1..], source, pane, vertical, splitId);
      var t', rest' := SplitLeaf(ts[0], source, pane, vertical, splitId),
                       SplitAll(ts[1..], source, pane, vertical, splitId);
      RemovedConcat(Leaves(t'), AllLeaves(rest'), pane);
    }
  }

  /** Splitting brings in no ids but the two new ones and keeps all ids apart. */
  lemma {:induction false} SplitIds(t: Tree, source: Id, pane: Id, vertical: bool, splitId: Id)
    requires Distinct(t) && pane !in Ids(t) && splitId !in Ids(t) && pane != splitId
    ensures var t' := SplitLeaf(t, source, pane, vertical, splitId);
            && Distinct(t')
            && Ids(t) <= Ids(t') <= Ids(t) + {pane, splitId}
            && (t.Node? ==> t'.Node? && t'.id == t.id && t'.vertical == t.vertical)
    decreases t, 1
  {
    match t
    case Leaf(id) =>
      TwoLeaves(source, pane);
    case Node(_, v, kids) =>
      if v == vertical && Leaf(source) in kids {
        AllIdsConcat(kids, [Leaf(pane)]);
        OneLeaf(pane);
      } else {
        SplitAllIds(kids, source, pane, vertical, splitId);
      }
  }

  lemma {:induction false} SplitAllIds(ts: seq<Tree>, source: Id, pane: Id, vertical: bool, splitId: Id)
    requires AllDistinct(ts) && pane !in AllIds(ts) && splitId !in AllIds(ts) && pane != splitId
    ensures var ts' := SplitAll(ts, source, pane, vertical, splitId);
            && AllDistinct(ts')
            && AllIds(ts) <= AllIds(ts') <= AllIds(ts) + {pane, splitId}
    decreases ts, 0
  {
    if ts != [] {
      SplitIds(ts[0], source, pane, vertical, splitId);
      SplitAllIds(ts[1..], source, pane, vertical, splitId);
      if source in Leaves(ts[0]) {
        LeavesAreIds(ts[0]);
        AllLeavesAreIds(ts[1..]);
        SplitAllElsewhere(ts[1..], source, pane, vertical, splitId);
      } else {
        SplitElsewhere(ts[0], source, pane, vertical, splitId);
      }
    }
  }

  lemma {:induction false} SplitShape(t: Tree, source: Id, pane: Id, vertical: bool, splitId: Id)
    requires Shaped(t)
    ensures Shaped(SplitLeaf(t, source, pane, vertical, splitId))
    decreases t, 1
  {
    match t
    case Leaf(_) =>
      TwoLeaves(source, pane);
    case Node(_, v, kids) =>
      if v == vertical && Leaf(source) in kids {
        AllShapedConcat(kids, [Leaf(pane)], v);
        OneLeaf(pane);
      } else {
        SplitAllShape(kids, source, pane, vertical, splitId, v);
      }
  }

  lemma {:induction false} AllShapedConcat(a: seq<Tree>, b: seq<Tree>, v: bool)
    ensures AllShaped(a + b, v) <==> AllShaped(a, v) && AllShaped(b, v)
  {
    if a == [] {
      assert a + b == b;
    } else {
      assert (a + b)[1..] == a[1..] + b;
      AllShapedConcat(a[1..], b, v);
    }
  }

  lemma {:induction false} SplitAllShape(ts: seq<Tree>, source: Id, pane: Id, vertical: bool, splitId: Id, v: bool)
    requires AllShaped(ts, v) && (v == vertical ==> Leaf(source) !in ts)
    ensures AllShaped(SplitAll(ts, source, pane, vertical, splitId), v)
    decreases ts, 0
  {
    if ts != [] {
      SplitShape(ts[0], source, pane, vertical, splitId);
      SplitAllShape(ts[1..], source, pane, vertical, splitId, v);
      assert ts[0].Leaf? ==> ts[0] == Leaf(ts[0].id);
    }
  }

  // ----- closing -----

  lemma {:induction false} WithoutLeafIds(ts: seq<Tree>, pane: Id)
    requires AllDistinct(ts) && Leaf(pane) in ts
    ensures var rest := WithoutLeaf(ts, pane);
            AllDistinct(rest) && AllIds(rest) == AllIds(ts) - {pane}
  {
    if ts[0] != Leaf(pane) {
      LeafKid(ts[1..], pane);
      WithoutLeafIds(ts[1..], pane);
      assert WithoutLeaf(ts, pane)[1..] == WithoutLeaf(ts[1..], pane);
    }
  }

  lemma {:induction false} WithoutLeafLeaves(ts: seq<Tree>, pane: Id)
    requires AllDistinct(ts) && Leaf(pane) in ts
    ensures AllLeaves(WithoutLeaf(ts, pane)) == Removed(AllLeaves(ts), pane)
  {
    AllLeavesAreIds(ts[1..]);
    if ts[0] == Leaf(pane) {
      RemovedAbsent(AllLeaves(ts[1..]), pane);
      assert AllLeaves(ts)[1..] == AllLeaves(ts[1..]);
    } else {
      LeafKid(ts[1..], pane);
      LeavesAreIds(ts[0]);
      WithoutLeafLeaves(ts[1..], pane);
      RemovedConcat(Leaves(ts[0]), AllLeaves(ts[1..]), pane);
      RemovedAbsent(Leaves(ts[0]), pane);
      assert WithoutLeaf(ts, pane)[1..] == WithoutLeaf(ts[1..], pane);
      assert AllLeaves(ts) == Leaves(ts[0]) + AllLeaves(ts[1..]);
    }
  }

  /** A close takes out exactly one leaf, keeps the order of the others, and keeps all ids
      apart. */
  lemma {:induction false} CloseLeaves(t: Tree, pane: Id)
    requires Distinct(t) && t != Leaf(pane)
    ensures var t' := CloseLeaf(t, pane);
            && Leaves(t') == Removed(Leaves(t), pane)
            && Distinct(t') && Ids(t') <= Ids(t) && (pane in Leaves(t) ==> pane !in Ids(t'))
    decreases t, 1
  {
    match t
    case Leaf(_) =>
      RemovedAbsent(Leaves(t), pane);
    case Node(id, v, kids) =>
      if Leaf(pane) in kids {
        LeafKid(kids, pane);
        WithoutLeafIds(kids, pane);
        WithoutLeafLeaves(kids, pane);
        var rest := WithoutLeaf(kids, pane);
        if |rest| == 1 {
          assert rest[1..] == [] && AllLeaves(rest) == Leaves(rest[0]) + [] && AllIds(rest) == Ids(rest[0]) + {};
        }
      } else {
        CloseAllLeaves(kids, pane);
        AllLeavesAreIds(kids);
      }
  }

  lemma {:induction false} CloseAllLeaves(ts: seq<Tree>, pane: Id)
    requires AllDistinct(ts) && Leaf(pane) !in ts
    ensures var ts' := CloseAll(ts, pane);
            && AllLeaves(ts') == Removed(AllLeaves(ts), pane)
            && AllDistinct(ts') && AllIds(ts') <= AllIds(ts) && (pane in AllLeaves(ts) ==> pane !in AllIds(ts'))
    decreases ts, 0
  {
    if ts != [] {
      CloseLeaves(ts[0], pane);
      CloseAllLeaves(ts[1..], pane);
      RemovedConcat(Leaves(ts[0]), AllLeaves(ts[1..]), pane);
      LeavesAreIds(ts[0]);
      AllLeavesAreIds(ts[1..]);
    }
  }

  lemma {:induction false} WithoutLeafShape(ts: seq<Tree>, pane: Id, v: bool)
    requires AllShaped(ts, v)
    ensures AllShaped(WithoutLeaf(ts, pane), v)
  {
    if ts != [] && ts[0] != Leaf(pane) {
      WithoutLeafShape(ts[1..], pane, v);
    }
  }

  /** A close that does not fault keeps the shape. */
  lemma {:induction false} CloseShape(t: Tree, pane: Id)
    requires Shaped(t) && !CloseFaults(t, pane)
    ensures var t' := CloseLeaf(t, pane);
            Shaped(t') && (t'.Node? ==> t.Node? && t'.vertical == t.vertical)
    decreases t, 1
  {
    if t.Node? {
      if Leaf(pane) in t.kids {
        WithoutLeafShape(t.kids, pane, t.vertical);
      } else {
        CloseAllShape(t.kids, pane, t.vertical);
      }
    }
  }

  lemma {:induction false} CloseAllShape(ts: seq<Tree>, pane: Id, v: bool)
    requires AllShaped(ts, v) && !AnyCloseFaults(ts, pane)
    ensures AllShaped(CloseAll(ts, pane), v)
    decreases ts, 0
  {
    if ts != [] {
      CloseShape(ts[0], pane);
      CloseAllShape(ts[1..], pane, v);
    }
  }

  // ----- round trip -----

  lemma {:induction false} WithoutAppended(ts: seq<Tree>, pane: Id)
    requires Leaf(pane) !in ts
    ensures WithoutLeaf(ts + [Leaf(pane)], pane) == ts
  {
    var all := ts + [Leaf(pane)];
    if ts == [] {
      assert all == [Leaf(pane)] && all[1..] == [];
    } else {
      assert all[1..] == ts[1..] + [Leaf(pane)];
      WithoutAppended(ts[1..], pane);
    }
  }

  /** Closing a pane right after it was split off gives the tree back, and never faults. */
  lemma {:induction false} CloseUndoesSplit(t: Tree, source: Id, pane: Id, vertical: bool, splitId: Id)
    requires Distinct(t) && Shaped(t) && source in Leaves(t) && pane !in Ids(t)
    ensures var t' := SplitLeaf(t, source, pane, vertical, splitId);
            CloseLeaf(t', pane) == t && !CloseFaults(t', pane) && t' != Leaf(pane)
    decreases t, 1
  {
    LeavesAreIds(t);
    match t
    case Leaf(id) =>
      var kids := [Leaf(source), Leaf(pane)];
      assert kids == [Leaf(source)] + [Leaf(pane)];
      WithoutAppended([Leaf(source)], pane);
      assert kids[1] == Leaf(pane);
    case Node(id, v, kids) =>
      AbsentKid(kids, pane);
      if v == vertical && Leaf(source) in kids {
        WithoutAppended(kids, pane);
        assert Leaf(pane) == (kids + [Leaf(pane)])[|kids|];
      } else {
        CloseUndoesSplitAll(kids, source, pane, vertical, splitId, v);
      }
  }

  lemma {:induction false} CloseUndoesSplitAll(ts: seq<Tree>, source: Id, pane: Id, vertical: bool, splitId: Id,
                                               v: bool)
    requires AllDistinct(ts) && AllShaped(ts, v) && pane !in AllIds(ts) && source in AllLeaves(ts)
    ensures var ts' := SplitAll(ts, source, pane, vertical, splitId);
            CloseAll(ts', pane) == ts && !AnyCloseFaults(ts', pane) && Leaf(pane) !in ts'
    decreases ts, 0
  {
    hide SplitLeaf, CloseLeaf, CloseFaults, Distinct, Shaped;
    var rest := ts[1..];
    var t', rest' := SplitLeaf(ts[0], source, pane, vertical, splitId), SplitAll(rest, source, pane, vertical, splitId);
    LeavesAreIds(ts[0]);
    AllLeavesAreIds(rest);
    if source in Leaves(ts[0]) {
      CloseUndoesSplit(ts[0], source, pane, vertical, splitId);
      SplitAllElsewhere(rest, source, pane, vertical, splitId);
      CloseAllElsewhere(rest, pane);
      AbsentKid(rest, pane);
    } else {
      SplitElsewhere(ts[0], source, pane, vertical, splitId);
      CloseElsewhere(ts[0], pane);
      CloseUndoesSplitAll(rest, source, pane, vertical, splitId, v);
      assert ts[0] != Leaf(pane);
    }
    assert ([t'] + rest')[1..] == rest';
  }

  lemma {:induction false} AbsentKid(ts: seq<Tree>, pane: Id)
    requires pane !in AllIds(ts)
    ensures Leaf(pane) !in ts
  {
    if Leaf(pane) in ts {
      LeafKid(ts, pane);
    }
  }

  // ----- where things sit -----

  /** `n` is the tree or a part of it. */
  predicate Part(n: Tree, t: Tree)
    decreases t, 1
  {
    n == t || (t.Node? && PartOfAny(n, t.kids))
  }

  predicate PartOfAny(n: Tree, ts: seq<Tree>)
    decreases ts, 0
  {
    ts != [] && (Part(n, ts[0]) || PartOfAny(n, ts[1..]))
  }

  /** A split of that orientation with `source` among its children and `pane` as the last. */
  predicate Joins(n: Tree, source: Id, pane: Id, vertical: bool) {
    n.Node? && n.vertical == vertical && Leaf(source) in n.kids && n.kids[|n.kids| - 1] == Leaf(pane)
  }

  /** After a split, source and pane are children of one split of the asked orientation, the
      pane its last. */
  lemma {:induction false} SplitJoins(t: Tree, source: Id, pane: Id, vertical: bool, splitId: Id) returns (n: Tree)
    requires source in Leaves(t)
    ensures var t' := SplitLeaf(t, source, pane, vertical, splitId);
            Part(n, t') && Joins(n, source, pane, vertical)
    decreases t, 1
  {
    match t
    case Leaf(_) =>
      n := SplitLeaf(t, source, pane, vertical, splitId);
      assert n.kids[0] == Leaf(source);
    case Node(id, v, kids) =>
      if v == vertical && Leaf(source) in kids {
        n := Node(id, v, kids + [Leaf(pane)]);
        var i :| 0 <= i < |kids| && kids[i] == Leaf(source);
        assert n.kids[i] == Leaf(source);
      } else {
        n := SplitAllJoins(kids, source, pane, vertical, splitId);
      }
  }

  lemma {:induction false} SplitAllJoins(ts: seq<Tree>, source: Id, pane: Id, vertical: bool, splitId: Id)
    returns (n: Tree)
    requires source in AllLeaves(ts)
    ensures PartOfAny(n, SplitAll(ts, source, pane, vertical, splitId)) && Joins(n, source, pane, vertical)
    decreases ts, 0
  {
    hide SplitLeaf, Joins, Leaves;
    var ts' := SplitAll(ts, source, pane, vertical, splitId);
    assert ts'[1..] == SplitAll(ts[1..], source, pane, vertical, splitId);
    if source in Leaves(ts[0]) {
      n := SplitJoins(ts[0], source, pane, vertical, splitId);
    } else {
      n := SplitAllJoins(ts[1..], source, pane, vertical, splitId);
    }
  }
}
