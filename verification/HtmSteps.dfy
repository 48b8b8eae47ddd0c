/** Each change newSplit and closePane make to the maps, as a change of the forest. */
module HtmSteps {
  import opened Forest
  import opened ForestProof
  import opened HtmMaps
  import opened HtmState

  /** The one tree a pane is in. */
  lemma {:induction false} HomeOf(panes: Panes, splits: Splits, f: Trees, pane: Id) returns (home: Id)
    requires TreesOk(panes, splits, f) && Covered(panes, splits, f) && pane in panes
    ensures home in f && pane in Leaves(f[home]) && TreeOk(panes, splits, home, f[home])
    ensures forall t :: t in f && t != home ==> pane !in Leaves(f[t]) && Ids(f[t]) !! Ids(f[home])
  {
    home :| home in f && pane in Leaves(f[home]);
    LeavesAreIds(f[home]);
    forall t | t in f && t != home
      ensures pane !in Leaves(f[t])
    {
      LeavesAreIds(f[t]);
      assert Ids(f[t]) !! Ids(f[home]);
    }
  }

  lemma {:induction false} RemovedKeeps(s: seq<Id>, x: Id, y: Id)
    requires y != x
    ensures y in Removed(s, x) <==> y in s
  {
    if s != [] {
      RemovedKeeps(s[1..], x, y);
    }
  }

  /** A pane hangs under its tab when alone in it, otherwise under a split of the tree. */
  lemma {:induction false} ParentIsTabOrSplit(panes: Panes, splits: Splits, home: Id, t: Tree, pane: Id)
    requires TreeOk(panes, splits, home, t) && pane in Leaves(t) && home !in splits
    ensures pane in panes
    ensures var p := panes[pane].parentId;
            if t == Leaf(pane) then p == home && p !in splits
            else t.Node? && p in splits && p in Ids(t)
  {
    hide Represents, Distinct, Shaped;
    ParentOf(panes, splits, home, t, pane);
    LeafOrNode(t, pane);
  }

  // ----- newSplit -----

  /** What the tree of the source gains. */
  lemma {:induction false} SplitHome(t: Tree, source: Id, pane: Id, vertical: bool, splitId: Id)
    requires Distinct(t) && Shaped(t) && source in Leaves(t)
    requires pane !in Ids(t) && splitId !in Ids(t) && pane != splitId
    ensures var t' := SplitLeaf(t, source, pane, vertical, splitId);
            && Distinct(t') && Shaped(t')
            && Ids(t) <= Ids(t') <= Ids(t) + {pane, splitId}
            && pane in Leaves(t') && source in Leaves(t') && t' != Leaf(source)
            && t'.id == if t == Leaf(source) then splitId else t.id
  {
    LeavesAreIds(t);
    SplitIds(t, source, pane, vertical, splitId);
    SplitShape(t, source, pane, vertical, splitId);
    SplitLeaves(t, source, pane, vertical, splitId);
    RemovedKeeps(Leaves(SplitLeaf(t, source, pane, vertical, splitId)), pane, source);
  }

  lemma {:induction false} SplitOthers(f: Trees, home: Id, source: Id, pane: Id, vertical: bool, splitId: Id)
    requires home in f && forall t :: t in f && t != home ==> source !in Leaves(f[t])
    ensures var f' := SplitForest(f, source, pane, vertical, splitId);
            f'.Keys == f.Keys && f'[home] == SplitLeaf(f[home], source, pane, vertical, splitId)
            && forall t :: t in f && t != home ==> f'[t] == f[t]
  {
    forall t | t in f && t != home
      ensures SplitLeaf(f[t], source, pane, vertical, splitId) == f[t]
    {
      SplitElsewhere(f[t], source, pane, vertical, splitId);
    }
  }

  lemma {:induction false} AppendKeeps(tabs: Tabs, panes: Panes, splits: Splits, f: Trees,
                                       panes': Panes, splits': Splits,
                                       source: Id, pane: Id, vertical: bool, splitId: Id, p: Id)
    requires HtmInv(tabs, panes, splits, f)
    requires Unused(pane, tabs, panes, splits) && Unused(splitId, tabs, panes, splits)
    requires pane != splitId
    requires source in panes && panes[source].parentId == p && p in splits && splits[p].vertical == vertical
    requires Appended(panes, splits, panes', splits', p, pane)
    ensures HtmInv(tabs, panes', splits', SplitForest(f, source, pane, vertical, splitId))
  {
    hide Ids, Leaves, Distinct, Shaped, Represents, SplitLeaf, OrdersNumberTabs, TreesOk, Covered;
    var home := HomeOf(panes, splits, f, source);
    var t, f' := f[home], SplitForest(f, source, pane, vertical, splitId);
    UnusedInTrees(tabs, panes, splits, f, pane);
    UnusedInTrees(tabs, panes, splits, f, splitId);
    ParentOf(panes, splits, home, t, source);
    LeafOrNode(t, source);
    SplitHome(t, source, pane, vertical, splitId);
    SplitOthers(f, home, source, pane, vertical, splitId);
    AppendRepresents(panes, splits, panes', splits', home, t, source, pane, splitId, p);
    OneTreeChanges(panes, splits, panes', splits', f, f', home);
  }

  ghost predicate TabFollows(tabs: Tabs, tabs': Tabs, splits: Splits, p: Id, child: Id) {
    tabs' == if p in splits || p !in tabs then tabs else tabs[p := tabs[p].(child := child)]
  }

  lemma {:induction false} NestKeeps(tabs: Tabs, panes: Panes, splits: Splits, f: Trees,
                                     tabs': Tabs, panes': Panes, splits': Splits,
                                     source: Id, pane: Id, vertical: bool, splitId: Id, p: Id)
    requires HtmInv(tabs, panes, splits, f)
    requires Unused(pane, tabs, panes, splits) && Unused(splitId, tabs, panes, splits)
    requires pane != splitId && splitId != ""
    requires source in panes && panes[source].parentId == p && (p in splits ==> splits[p].vertical != vertical)
    requires Nested(panes, splits, panes', splits', p, source, pane, vertical, splitId)
    requires TabFollows(tabs, tabs', splits, p, splitId)
    ensures HtmInv(tabs', panes', splits', SplitForest(f, source, pane, vertical, splitId))
    ensures p in splits || p in tabs
  {
    hide Ids, Leaves, Distinct, Shaped, Represents, SplitLeaf, OrdersNumberTabs, TreesOk, Covered, Replaced, Nested;
    hide TabsMatch, TabFollows, KeysApart, SplitForest;
    SpelledOut(tabs, panes, splits, f);
    var home := HomeOf(panes, splits, f, source);
    var t, f' := f[home], SplitForest(f, source, pane, vertical, splitId);
    UnusedInTrees(tabs, panes, splits, f, pane);
    UnusedInTrees(tabs, panes, splits, f, splitId);
    EntriesOf(panes, splits, home, t);
    ParentIsTabOrSplit(panes, splits, home, t, source);
    SplitHome(t, source, pane, vertical, splitId);
    SplitOthers(f, home, source, pane, vertical, splitId);
    NestRepresents(panes, splits, panes', splits', home, t, source, pane, vertical, splitId, p);
    LeavesAreIds(t);
    LeavesAreIds(f'[home]);
    NestTouches(panes, splits, panes', splits', source, pane, vertical, splitId, p, Ids(t));
    ParentOf(panes', splits', home, f'[home], source);
    TabRelinked(tabs, tabs', splits, f, f', home, p, splitId);
    NestKeysApart(tabs, tabs', panes, splits, panes', splits', pane, splitId);
    OneTreeChanges(panes, splits, panes', splits', f, f', home);
  }

  /** The key facts of a well-formed state. */
  lemma {:induction false} SpelledOut(tabs: Tabs, panes: Panes, splits: Splits, f: Trees)
    requires TabsMatch(tabs, f) && KeysApart(tabs, panes, splits)
    ensures tabs.Keys == f.Keys && panes.Keys !! splits.Keys
    ensures tabs.Keys !! splits.Keys
  {
  }

  lemma {:induction false} TabRelinked(tabs: Tabs, tabs': Tabs, splits: Splits, f: Trees, f': Trees, home: Id,
                                       p: Id, child: Id)
    requires TabsMatch(tabs, f) && OrdersNumberTabs(tabs) && TabFollows(tabs, tabs', splits, p, child)
    requires f'.Keys == f.Keys && home in f && forall t :: t in f && t != home ==> f'[t] == f[t]
    requires p == home || p in splits
    requires f'[home].id == if p in splits then f[home].id else child
    ensures TabsMatch(tabs', f') && OrdersNumberTabs(tabs') && tabs'.Keys == tabs.Keys
  {
    hide OrdersNumberTabs;
    SameOrders(tabs, tabs');
    forall t | t in tabs'
      ensures tabs'[t].id == t && tabs'[t].child == f'[t].id
    {
    }
  }

  lemma {:induction false} NestKeysApart(tabs: Tabs, tabs': Tabs, panes: Panes, splits: Splits,
                                         panes': Panes, splits': Splits, pane: Id, splitId: Id)
    requires KeysApart(tabs, panes, splits) && tabs'.Keys == tabs.Keys
    requires panes'.Keys == panes.Keys + {pane} && splits'.Keys == splits.Keys + {splitId}
    requires Unused(pane, tabs, panes, splits) && Unused(splitId, tabs, panes, splits)
    requires pane != splitId && splitId != ""
    ensures KeysApart(tabs', panes', splits')
  {
  }

  lemma {:induction false} CollapseKeysApart(tabs: Tabs, tabs': Tabs, panes: Panes, splits: Splits,
                                             panes': Panes, splits': Splits, pane: Id, p: Id)
    requires KeysApart(tabs, panes, splits) && tabs'.Keys == tabs.Keys
    requires panes'.Keys == panes.Keys - {pane} && splits'.Keys == splits.Keys - {p}
    ensures KeysApart(tabs', panes', splits')
  {
  }

  lemma {:induction false} NestTouches(panes: Panes, splits: Splits, panes': Panes, splits': Splits,
                                       source: Id, pane: Id, vertical: bool, splitId: Id, p: Id, ids: set<Id>)
    requires Nested(panes, splits, panes', splits', p, source, pane, vertical, splitId)
    requires source in ids && (p in splits ==> p in ids) && source in panes && p != splitId
    requires pane !in panes && splitId !in splits
    ensures panes'.Keys == panes.Keys + {pane} && splits'.Keys == splits.Keys + {splitId}
    ensures panes'[source].parentId == splitId
    ensures Keeps(panes, splits, panes', splits', panes.Keys + splits.Keys - ids)
  {
    hide Replaced;
  }

  // ----- closePane -----

  /** Closing the only pane of a tab closes the tab. */
  lemma {:induction false} CloseTabKeeps(tabs: Tabs, panes: Panes, splits: Splits, f: Trees,
                                         pane: Id, p: Id)
    requires HtmInv(tabs, panes, splits, f)
    requires pane in panes && panes[pane].parentId == p && p in tabs
    ensures HtmInv(Shifted(tabs, tabs[p].order) - {p}, panes - {pane}, splits, CloseForest(f, pane))
    ensures forall t :: t in tabs && tabs[t].child == pane ==> t == p
    ensures tabs[p].child == pane
  {
    hide Ids, Leaves, Distinct, Shaped, Represents, CloseLeaf, OrdersNumberTabs, TreesOk, Covered, Shifted, CloseForest;
    var home := HomeOf(panes, splits, f, pane);
    ParentOf(panes, splits, home, f[home], pane);
    LeafOrNode(f[home], pane);
    assert f[home] == Leaf(pane) && home == p;
    CloseTabOrders(tabs, p);
    OnlyTab(tabs, panes, splits, f, pane, p);
    CloseOthers(f, home, pane);
    LastTreeGoes(panes, splits, f, pane, p);
    assert CloseForest(f, pane) == f - {p};
    TabGoes(tabs, f, p, tabs[p].order);
  }

  lemma {:induction false} TabGoes(tabs: Tabs, f: Trees, p: Id, order: int)
    requires TabsMatch(tabs, f) && p in tabs
    ensures TabsMatch(Shifted(tabs, order) - {p}, f - {p})
    ensures (Shifted(tabs, order) - {p}).Keys == tabs.Keys - {p}
  {
  }

  lemma {:induction false} OnlyTab(tabs: Tabs, panes: Panes, splits: Splits, f: Trees, pane: Id, p: Id)
    requires TabsMatch(tabs, f) && TreesOk(panes, splits, f) && p in f && f[p] == Leaf(pane)
    ensures forall t :: t in tabs && tabs[t].child == pane ==> t == p
  {
    forall t | t in tabs && tabs[t].child == pane
      ensures t == p
    {
      assert f[t].id in Ids(f[t]) && pane in Ids(f[p]);
    }
  }

  lemma {:induction false} CloseOthers(f: Trees, home: Id, pane: Id)
    requires home in f && forall t :: t in f && t != home ==> pane !in Leaves(f[t])
    ensures var f' := CloseForest(f, pane);
            && f'.Keys == (if f[home] == Leaf(pane) then f.Keys - {home} else f.Keys)
            && (f[home] != Leaf(pane) ==> f'[home] == CloseLeaf(f[home], pane))
            && forall t :: t in f && t != home ==> f'[t] == f[t]
  {
    forall t | t in f && t != home
      ensures CloseLeaf(f[t], pane) == f[t] && f[t] != Leaf(pane)
    {
      CloseElsewhere(f[t], pane);
    }
  }

  lemma {:induction false} LastTreeGoes(panes: Panes, splits: Splits, f: Trees, pane: Id, p: Id)
    requires TreesOk(panes, splits, f) && Covered(panes, splits, f) && p in f && f[p] == Leaf(pane)
    requires panes.Keys !! splits.Keys
    ensures TreesOk(panes - {pane}, splits, f - {p}) && Covered(panes - {pane}, splits, f - {p})
  {
    hide Distinct, Shaped, Represents;
    assert Ids(f[p]) == {pane} && Leaves(f[p]) == [pane];
    assert TreeOk(panes, splits, p, f[p]);
    EntriesOf(panes, splits, p, f[p]);
    forall t | t in f && t != p
      ensures TreeOk(panes - {pane}, splits, t, f[t])
    {
      assert TreeOk(panes, splits, t, f[t]) && Ids(f[t]) !! Ids(f[p]);
      Frame(panes, splits, panes - {pane}, splits, t, f[t]);
    }
    forall id | id in panes && id != pane
      ensures exists t :: t in f - {p} && id in Leaves((f - {p})[t])
    {
      var t :| t in f && id in Leaves(f[t]);
      assert id in Leaves((f - {p})[t]);
    }
    forall id | id in splits
      ensures exists t :: t in f - {p} && id in Ids((f - {p})[t])
    {
      var t :| t in f && id in Ids(f[t]);
      assert id in Ids((f - {p})[t]);
    }
  }

  /** What the tree of the pane loses. */
  lemma {:induction false} CloseHome(panes: Panes, splits: Splits, home: Id, t: Tree, pane: Id, p: Id)
    requires TreeOk(panes, splits, home, t) && panes.Keys !! splits.Keys
    requires t.Node? && pane in Leaves(t) && pane in panes && panes[pane].parentId == p && !CloseFaults(t, pane)
    ensures p in splits && p in Ids(t)
    ensures var t' := CloseLeaf(t, pane);
            && Distinct(t') && Shaped(t') && t' != Leaf(pane)
            && Ids(t') == Ids(t) - {pane} - if |splits[p].children| == 2 then {p} else {}
  {
    CloseIds(panes, splits, home, t, pane, p);
    CloseLeaves(t, pane);
    CloseShape(t, pane);
  }

  /** On every well-formed state a live pane can be closed unless the other of two children
      of its split is a split. */
  lemma {:induction false} FaultCondition(tabs: Tabs, panes: Panes, splits: Splits, f: Trees,
                                          pane: Id, p: Id)
    requires HtmInv(tabs, panes, splits, f)
    requires pane in panes && panes[pane].parentId == p
    ensures p in tabs || p in splits
    ensures p in splits ==> pane in splits[p].children
    ensures (exists t :: t in f && CloseFaults(f[t], pane)) <==>
            p in splits && |splits[p].children| == 2 && Without(splits[p].children, pane)[0] in splits
    ensures p in splits && |splits[p].children| == 2 ==>
              var other := Without(splits[p].children, pane)[0];
              other != pane && (other in panes || other in splits)
  {
    hide Ids, Leaves, Distinct, Shaped, Represents, CloseFaults, OrdersNumberTabs, TreesOk, Covered;
    var home := HomeOf(panes, splits, f, pane);
    SpelledOut(tabs, panes, splits, f);
    ParentIsTabOrSplit(panes, splits, home, f[home], pane);
    if f[home].Node? {
      FaultsIff(panes, splits, home, f[home], pane, p);
    } else {
      LeafNeverFaults(f[home], pane);
    }
    forall t | t in f && t != home
      ensures !CloseFaults(f[t], pane)
    {
      CloseElsewhere(f[t], pane);
    }
  }

  lemma {:induction false} LeafNeverFaults(t: Tree, pane: Id)
    requires t.Leaf?
    ensures !CloseFaults(t, pane)
  {
  }

  lemma {:induction false} ShrinkKeeps(tabs: Tabs, panes: Panes, splits: Splits, f: Trees,
                                       panes': Panes, splits': Splits, pane: Id, p: Id)
    requires HtmInv(tabs, panes, splits, f)
    requires pane in panes && panes[pane].parentId == p && p in splits && pane in splits[p].children
    requires Shrunk(panes, splits, panes', splits', p, pane)
    ensures HtmInv(tabs, panes', splits', CloseForest(f, pane))
  {
    hide Ids, Leaves, Distinct, Shaped, Represents, CloseLeaf, CloseFaults, OrdersNumberTabs, TreesOk, Covered;
    var home := HomeOf(panes, splits, f, pane);
    var t, f' := f[home], CloseForest(f, pane);
    ParentOf(panes, splits, home, t, pane);
    LeafOrNode(t, pane);
    FaultsIff(panes, splits, home, t, pane, p);
    CloseHome(panes, splits, home, t, pane, p);
    CloseOthers(f, home, pane);
    ShrinkRepresents(panes, splits, panes', splits', home, t, pane, p);
    EntriesOf(panes, splits, home, t);
    LeavesAreIds(t);
    LeavesAreIds(f'[home]);
    OneTreeChanges(panes, splits, panes', splits', f, f', home);
  }

  lemma {:induction false} CollapseKeeps(tabs: Tabs, panes: Panes, splits: Splits, f: Trees,
                                         tabs': Tabs, panes': Panes, splits': Splits, pane: Id, p: Id, only: Id)
    requires HtmInv(tabs, panes, splits, f)
    requires pane in panes && panes[pane].parentId == p && p in splits && pane in splits[p].children
    requires Collapsed(panes, splits, panes', splits', p, pane, only)
    requires TabFollows(tabs, tabs', splits, splits[p].parentId, only)
    ensures HtmInv(tabs', panes', splits', CloseForest(f, pane))
    ensures splits[p].parentId in tabs || splits[p].parentId in splits
    ensures splits[p].parentId != p
  {
    hide Ids, Leaves, Distinct, Shaped, Represents, CloseLeaf, CloseFaults, OrdersNumberTabs, TreesOk, Covered;
    hide Replaced, Collapsed, Without, TabsMatch, TabFollows, KeysApart, CloseForest;
    SpelledOut(tabs, panes, splits, f);
    var home := HomeOf(panes, splits, f, pane);
    var t, f' := f[home], CloseForest(f, pane);
    var above := splits[p].parentId;
    EntriesOf(panes, splits, home, t);
    ParentIsTabOrSplit(panes, splits, home, t, pane);
    FaultsIff(panes, splits, home, t, pane, p);
    CollapseIsOfTwo(panes, splits, panes', splits', pane, p, only);
    CloseHome(panes, splits, home, t, pane, p);
    CloseOthers(f, home, pane);
    CollapseRepresents(panes, splits, panes', splits', home, t, pane, p, only);
    AboveIsKnown(panes, splits, home, t, p);
    LeavesAreIds(t);
    LeavesAreIds(f'[home]);
    CollapseTouches(panes, splits, panes', splits', pane, p, only, Ids(t));
    TabRelinked(tabs, tabs', splits, f, f', home, above, only);
    CollapseKeysApart(tabs, tabs', panes, splits, panes', splits', pane, p);
    OneTreeChanges(panes, splits, panes', splits', f, f', home);
  }

  lemma {:induction false} CollapseIsOfTwo(panes: Panes, splits: Splits, panes': Panes, splits': Splits,
                                           pane: Id, p: Id, only: Id)
    requires Collapsed(panes, splits, panes', splits', p, pane, only) && pane in splits[p].children
    ensures |splits[p].children| == 2 && Without(splits[p].children, pane)[0] == only && only in panes
  {
  }

  lemma {:induction false} CollapseTouches(panes: Panes, splits: Splits, panes': Panes, splits': Splits,
                                           pane: Id, p: Id, only: Id, ids: set<Id>)
    requires Collapsed(panes, splits, panes', splits', p, pane, only)
    requires pane in ids && p in ids && only in ids && only != pane && splits[p].parentId != p
    requires splits[p].parentId in splits ==> splits[p].parentId in ids
    ensures panes'.Keys == panes.Keys - {pane} && splits'.Keys == splits.Keys - {p}
    ensures Keeps(panes, splits, panes', splits', panes.Keys + splits.Keys - ids)
  {
    hide Replaced, Without;
  }

  /** A split hangs under a tab or under another split of its tree, which lists it. */
  lemma {:induction false} AboveIsKnown(panes: Panes, splits: Splits, parent: Id, t: Tree, p: Id)
    requires Represents(panes, splits, parent, t) && Distinct(t) && panes.Keys !! splits.Keys
    requires p in Ids(t) && p in splits && (parent in splits ==> parent !in Ids(t))
    ensures var above := splits[p].parentId;
            && above != p
            && if p == t.id then above == parent
               else above in Ids(t) && above in splits && p in splits[above].children
    decreases t, 1
  {
    if t.Node? && p != t.id {
      AboveIsKnownAll(panes, splits, t.id, t.kids, p);
    }
  }

  lemma {:induction false} AboveIsKnownAll(panes: Panes, splits: Splits, parent: Id, ts: seq<Tree>, p: Id)
    requires RepresentsAll(panes, splits, parent, ts) && AllDistinct(ts) && panes.Keys !! splits.Keys
    requires parent !in AllIds(ts) && p in AllIds(ts) && p in splits
    ensures var above := splits[p].parentId;
            && above != p
            && if above == parent then p in Roots(ts)
               else above in AllIds(ts) && above in splits && p in splits[above].children
    decreases ts, 0
  {
    RootsCons(ts);
    if p in Ids(ts[0]) {
      AboveIsKnown(panes, splits, parent, ts[0], p);
    } else {
      AboveIsKnownAll(panes, splits, parent, ts[1..], p);
    }
  }

  /** Parent ids and child lists agree, for every split. */
  lemma {:induction false} SplitIsListed(tabs: Tabs, panes: Panes, splits: Splits, f: Trees, p: Id)
    requires HtmInv(tabs, panes, splits, f) && p in splits
    ensures splits[p].parentId != p
    ensures var above := splits[p].parentId;
            if above in tabs then tabs[above].child == p
            else above in splits && p in splits[above].children
  {
    hide Ids, Leaves, Distinct, Shaped, Represents, OrdersNumberTabs;
    var home :| home in f && p in Ids(f[home]);
    assert TreeOk(panes, splits, home, f[home]);
    EntriesOf(panes, splits, home, f[home]);
    AboveIsKnown(panes, splits, home, f[home], p);
  }

  /** The same for every pane. */
  lemma {:induction false} PaneIsListed(tabs: Tabs, panes: Panes, splits: Splits, f: Trees, pane: Id)
    requires HtmInv(tabs, panes, splits, f) && pane in panes
    ensures panes[pane].id == pane
    ensures var p := panes[pane].parentId;
            if p in tabs then tabs[p].child == pane
            else p in splits && pane in splits[p].children
  {
    hide Ids, Leaves, Distinct, Shaped, Represents, CloseFaults, OrdersNumberTabs, TreesOk, Covered;
    var home := HomeOf(panes, splits, f, pane);
    SpelledOut(tabs, panes, splits, f);
    ParentIsTabOrSplit(panes, splits, home, f[home], pane);
    ParentOf(panes, splits, home, f[home], pane);
    if f[home].Node? {
      FaultsIff(panes, splits, home, f[home], pane, panes[pane].parentId);
    }
  }

  lemma {:induction false} SharesMatch(panes: Panes, splits: Splits, parent: Id, t: Tree, p: Id)
    requires Represents(panes, splits, parent, t) && Shaped(t) && panes.Keys !! splits.Keys
    requires p in Ids(t) && p in splits
    ensures |splits[p].sizes| == |splits[p].children| >= 2
    ensures var above := splits[p].parentId;
            if p == t.id then t.Node? && above == parent && splits[p].vertical == t.vertical
            else above in splits && splits[above].vertical != splits[p].vertical
    decreases t, 1
  {
    if t.Node? && p != t.id {
      SharesMatchAll(panes, splits, t.id, t.vertical, t.kids, p);
    }
  }

  lemma {:induction false} SharesMatchAll(panes: Panes, splits: Splits, parent: Id, vertical: bool, ts: seq<Tree>,
                                          p: Id)
    requires RepresentsAll(panes, splits, parent, ts) && AllShaped(ts, vertical) && panes.Keys !! splits.Keys
    requires parent in splits && splits[parent].vertical == vertical
    requires p in AllIds(ts) && p in splits
    ensures |splits[p].sizes| == |splits[p].children| >= 2
    ensures splits[p].parentId in splits && splits[splits[p].parentId].vertical != splits[p].vertical
    decreases ts, 0
  {
    if p in Ids(ts[0]) {
      SharesMatch(panes, splits, parent, ts[0], p);
    } else {
      SharesMatchAll(panes, splits, parent, vertical, ts[1..], p);
    }
  }

  /** Every split has two children or more and a share for each, and lies across the split above it. */
  lemma {:induction false} SplitIsWellFormed(tabs: Tabs, panes: Panes, splits: Splits, f: Trees,
                                             p: Id)
    requires HtmInv(tabs, panes, splits, f) && p in splits
    ensures |splits[p].sizes| == |splits[p].children| >= 2
    ensures splits[p].parentId in splits ==> splits[splits[p].parentId].vertical != splits[p].vertical
  {
    hide Ids, Leaves, Distinct, Shaped, Represents, OrdersNumberTabs;
    var home :| home in f && p in Ids(f[home]);
    assert TreeOk(panes, splits, home, f[home]);
    EntriesOf(panes, splits, home, f[home]);
    SharesMatch(panes, splits, home, f[home], p);
  }
}
