/** The invariant of MultiplexerState: its maps stand for one tree per tab, and its tab
    orders number the tabs (src/htm/MultiplexerState.cpp). */
module HtmState {
  import opened Forest
  import opened ForestProof
  import opened HtmMaps

  type Tabs = map<Id, Tab>
  type Trees = map<Id, Tree>

  function SplitForest(f: Trees, source: Id, pane: Id, vertical: bool, splitId: Id): Trees {
    map t | t in f :: SplitLeaf(f[t], source, pane, vertical, splitId)
  }

  /** A tab whose only pane closes goes with it. */
  function CloseForest(f: Trees, pane: Id): Trees {
    map t | t in f && f[t] != Leaf(pane) :: CloseLeaf(f[t], pane)
  }

  // ----- the invariant -----

  ghost predicate TabsMatch(tabs: Tabs, f: Trees) {
    && tabs.Keys == f.Keys
    && forall t :: t in tabs ==> tabs[t].id == t && tabs[t].child == f[t].id
  }

  ghost predicate TreeOk(panes: Panes, splits: Splits, tab: Id, t: Tree) {
    Represents(panes, splits, tab, t) && Distinct(t) && Shaped(t)
  }

  ghost predicate TreesOk(panes: Panes, splits: Splits, f: Trees) {
    && (forall t :: t in f ==> TreeOk(panes, splits, t, f[t]))
    && (forall t1, t2 :: t1 in f && t2 in f && t1 != t2 ==> Ids(f[t1]) !! Ids(f[t2]))
  }

  /** Nothing in the maps is outside the trees. */
  ghost predicate Covered(panes: Panes, splits: Splits, f: Trees) {
    && (forall id :: id in panes ==> exists t :: t in f && id in Leaves(f[t]))
    && (forall id :: id in splits ==> exists t :: t in f && id in Ids(f[t]))
  }

  ghost predicate KeysApart(tabs: Tabs, panes: Panes, splits: Splits) {
    panes.Keys !! splits.Keys && tabs.Keys !! splits.Keys && "" !in splits
  }

  ghost predicate HasOrder(tabs: Tabs, k: int) {
    exists t :: t in tabs && tabs[t].order == k
  }

  /** The orders are the numbers below the tab count, each used once. */
  ghost predicate OrdersNumberTabs(tabs: Tabs) {
    && (forall t :: t in tabs ==> 0 <= tabs[t].order < |tabs|)
    && (forall t1, t2 :: t1 in tabs && t2 in tabs && tabs[t1].order == tabs[t2].order ==> t1 == t2)
    && (forall k :: 0 <= k < |tabs| ==> HasOrder(tabs, k))
  }

  ghost predicate HtmInv(tabs: Tabs, panes: Panes, splits: Splits, f: Trees) {
    && TabsMatch(tabs, f)
    && TreesOk(panes, splits, f)
    && Covered(panes, splits, f)
    && KeysApart(tabs, panes, splits)
    && OrdersNumberTabs(tabs)
  }

  predicate Unused(id: Id, tabs: Tabs, panes: Panes, splits: Splits) {
    id !in tabs && id !in panes && id !in splits
  }

  /** An id outside the maps is outside every tree. */
  lemma {:induction false} UnusedInTrees(tabs: Tabs, panes: Panes, splits: Splits, f: Trees, id: Id)
    requires TreesOk(panes, splits, f) && panes.Keys !! splits.Keys && id !in panes && id !in splits
    ensures forall t :: t in f ==> id !in Ids(f[t])
  {
    forall t | t in f
      ensures id !in Ids(f[t])
    {
      assert TreeOk(panes, splits, t, f[t]);
      EntriesOf(panes, splits, t, f[t]);
    }
  }

  // ----- orders -----

  lemma {:induction false} NewTabOrders(tabs: Tabs, tabId: Id, paneId: Id)
    requires OrdersNumberTabs(tabs) && tabId !in tabs
    ensures OrdersNumberTabs(tabs[tabId := Tab(tabId, paneId, |tabs|)])
  {
    var tabs' := tabs[tabId := Tab(tabId, paneId, |tabs|)];
    assert |tabs'| == |tabs| + 1;
    assert tabs'[tabId].order == |tabs|;
    forall k | 0 <= k < |tabs|
      ensures HasOrder(tabs', k)
    {
      assert HasOrder(tabs, k);
      var t :| t in tabs && tabs[t].order == k;
      assert tabs'[t].order == k;
    }
  }

  function Shift(tab: Tab, order: int): Tab {
    if tab.order > order then tab.(order := tab.order - 1) else tab
  }

  function Shifted(tabs: Tabs, order: int): Tabs {
    map t | t in tabs :: Shift(tabs[t], order)
  }

  lemma {:induction false} CloseTabOrders(tabs: Tabs, tabId: Id)
    requires OrdersNumberTabs(tabs) && tabId in tabs
    ensures OrdersNumberTabs(Shifted(tabs, tabs[tabId].order) - {tabId})
  {
    ClosedTabCount(tabs, tabId, tabs[tabId].order);
    ShiftFillsGap(tabs, tabId, Shifted(tabs, tabs[tabId].order) - {tabId});
  }

  /** Tabs keep their order among each other; only tabs may have gone. */
  ghost predicate InTheSameOrder(tabs: Tabs, tabs': Tabs) {
    && tabs'.Keys <= tabs.Keys
    && forall t1, t2 :: t1 in tabs' && t2 in tabs' ==>
         (tabs'[t1].order < tabs'[t2].order <==> tabs[t1].order < tabs[t2].order)
  }

  ghost predicate SameTabOrders(tabs: Tabs, tabs': Tabs) {
    tabs'.Keys == tabs.Keys && forall t :: t in tabs ==> tabs'[t].order == tabs[t].order
  }

  /** Closing a tab moves no tab past another. */
  lemma {:induction false} ShiftKeepsOrder(tabs: Tabs, tabId: Id)
    requires OrdersNumberTabs(tabs) && tabId in tabs
    ensures InTheSameOrder(tabs, Shifted(tabs, tabs[tabId].order) - {tabId})
  {
    var o, tabs' := tabs[tabId].order, Shifted(tabs, tabs[tabId].order) - {tabId};
    forall t1, t2 | t1 in tabs' && t2 in tabs'
      ensures tabs'[t1].order < tabs'[t2].order <==> tabs[t1].order < tabs[t2].order
    {
      assert tabs[t1].order != o && tabs[t2].order != o;
    }
  }

  lemma {:induction false} ShiftFillsGap(tabs: Tabs, tabId: Id, tabs': Tabs)
    requires OrdersNumberTabs(tabs) && tabId in tabs
    requires tabs'.Keys == tabs.Keys - {tabId} && |tabs'| == |tabs| - 1
    requires forall t :: t in tabs' ==> tabs'[t] == Shift(tabs[t], tabs[tabId].order)
    ensures OrdersNumberTabs(tabs')
  {
    var o := tabs[tabId].order;
    forall t | t in tabs'
      ensures tabs[t].order != o
    {
    }
    forall k | 0 <= k < |tabs'|
      ensures HasOrder(tabs', k)
    {
      var k' := if k < o then k else k + 1;
      assert HasOrder(tabs, k');
      var t :| t in tabs && tabs[t].order == k';
      assert tabs'[t].order == k;
    }
  }

  lemma {:induction false} ClosedTabCount(tabs: Tabs, tabId: Id, o: int)
    requires tabId in tabs
    ensures |Shifted(tabs, o) - {tabId}| == |tabs| - 1
  {
    var tabs' := Shifted(tabs, o) - {tabId};
    assert tabs'.Keys == tabs.Keys - {tabId};
    assert |tabs'| == |tabs'.Keys|;
  }

  /** Replacing a tab's child leaves the orders alone. */
  lemma {:induction false} SameOrders(tabs: Tabs, tabs': Tabs)
    requires OrdersNumberTabs(tabs) && tabs'.Keys == tabs.Keys
    requires forall t :: t in tabs ==> tabs'[t].order == tabs[t].order
    ensures OrdersNumberTabs(tabs')
  {
    assert |tabs'| == |tabs'.Keys| && |tabs| == |tabs.Keys|;
    forall k | 0 <= k < |tabs'|
      ensures HasOrder(tabs', k)
    {
      assert HasOrder(tabs, k);
      var t :| t in tabs && tabs[t].order == k;
      assert tabs'[t].order == k;
    }
  }

  // ----- new tab -----

  lemma {:induction false} NewTabKeeps(tabs: Tabs, panes: Panes, splits: Splits, f: Trees,
                                       tabId: Id, paneId: Id)
    requires HtmInv(tabs, panes, splits, f)
    requires Unused(tabId, tabs, panes, splits) && Unused(paneId, tabs, panes, splits)
    ensures HtmInv(tabs[tabId := Tab(tabId, paneId, |tabs|)], panes[paneId := Pane(paneId, tabId)], splits,
                   f[tabId := Leaf(paneId)])
  {
    hide TreesOk, Covered, OrdersNumberTabs;
    NewTabOrders(tabs, tabId, paneId);
    NewTabTrees(tabs, panes, splits, f, tabId, paneId);
  }

  lemma {:induction false} NewTabTrees(tabs: Tabs, panes: Panes, splits: Splits, f: Trees, tabId: Id, paneId: Id)
    requires TreesOk(panes, splits, f) && Covered(panes, splits, f) && panes.Keys !! splits.Keys
    requires paneId !in panes && paneId !in splits && tabId !in f
    ensures var panes', f' := panes[paneId := Pane(paneId, tabId)], f[tabId := Leaf(paneId)];
            TreesOk(panes', splits, f') && Covered(panes', splits, f')
  {
    hide Represents, Distinct, Shaped, Ids, Leaves;
    var panes', f' := panes[paneId := Pane(paneId, tabId)], f[tabId := Leaf(paneId)];
    UnusedInTrees(tabs, panes, splits, f, paneId);
    NewLeafOk(panes', splits, tabId, paneId);
    forall t | t in f
      ensures TreeOk(panes', splits, t, f[t])
    {
      assert TreeOk(panes, splits, t, f[t]);
      Frame(panes, splits, panes', splits, t, f[t]);
    }
    forall id | id in panes'
      ensures exists t :: t in f' && id in Leaves(f'[t])
    {
      if id == paneId {
        assert id in Leaves(f'[tabId]);
      } else {
        var t :| t in f && id in Leaves(f[t]);
        assert id in Leaves(f'[t]);
      }
    }
    forall id | id in splits
      ensures exists t :: t in f' && id in Ids(f'[t])
    {
      var t :| t in f && id in Ids(f[t]);
      assert id in Ids(f'[t]);
    }
  }

  lemma {:induction false} NewLeafOk(panes: Panes, splits: Splits, tabId: Id, paneId: Id)
    requires paneId in panes && panes[paneId] == Pane(paneId, tabId)
    ensures TreeOk(panes, splits, tabId, Leaf(paneId))
    ensures Ids(Leaf(paneId)) == {paneId} && Leaves(Leaf(paneId)) == [paneId]
  {
  }

  // ----- changing one tree -----

  /** Only the tree of `home` changes; the ids it gains are new and those it loses are gone. */
  lemma {:induction false} OneTreeChanges(panes: Panes, splits: Splits, panes': Panes, splits': Splits,
                                          f: Trees, f': Trees, home: Id)
    requires TreesOk(panes, splits, f) && Covered(panes, splits, f) && home in f && f'.Keys == f.Keys
    requires forall t :: t in f && t != home ==> f'[t] == f[t]
    requires TreeOk(panes', splits', home, f'[home])
    requires panes.Keys !! splits.Keys && panes'.Keys !! splits'.Keys
    requires forall id :: id in Ids(f'[home]) ==> id in Ids(f[home]) || (id !in panes && id !in splits)
    requires Keeps(panes, splits, panes', splits', panes.Keys + splits.Keys - Ids(f[home]))
    requires forall id :: id in panes' ==> id in panes || id in Leaves(f'[home])
    requires forall id :: id in splits' ==> id in splits || id in Ids(f'[home])
    requires forall id :: id in Ids(f[home]) && (id in panes' || id in splits') ==> id in Ids(f'[home])
    ensures TreesOk(panes', splits', f') && Covered(panes', splits', f')
  {
    hide Ids, Leaves, Represents, Distinct, Shaped;
    forall t | t in f
      ensures TreeOk(panes', splits', t, f'[t])
    {
      if t != home {
        assert TreeOk(panes, splits, t, f[t]) && Ids(f[t]) !! Ids(f[home]);
        Frame(panes, splits, panes', splits', t, f[t]);
      }
    }
    forall t | t in f && t != home
      ensures Ids(f'[home]) !! Ids(f[t])
    {
      assert TreeOk(panes, splits, t, f[t]);
      EntriesOf(panes, splits, t, f[t]);
      assert Ids(f[home]) !! Ids(f[t]);
    }
    EntriesOf(panes', splits', home, f'[home]);
    LeavesAreIds(f[home]);
    forall id | id in panes'
      ensures exists t :: t in f' && id in Leaves(f'[t])
    {
      if id !in Leaves(f'[home]) {
        var t :| t in f && id in Leaves(f[t]);
        assert t != home;
        assert id in Leaves(f'[t]);
      }
    }
    forall id | id in splits'
      ensures exists t :: t in f' && id in Ids(f'[t])
    {
      if id !in Ids(f'[home]) {
        var t :| t in f && id in Ids(f[t]);
        assert t != home;
        assert id in Ids(f'[t]);
      }
    }
  }
}
