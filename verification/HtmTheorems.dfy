/** What a user sees of the pane operations, over the whole forest
    (src/htm/MultiplexerState.cpp). */
module HtmTheorems {
  import opened Forest
  import opened ForestProof
  import opened HtmMaps
  import opened HtmState
  import opened HtmSteps
  import opened Multiplexer

  /** Splitting adds one pane, to the tab of its source and as the last child of a split that
      also holds the source; the other panes stay, in order. */
  lemma {:induction false} SplitAddsOnePane(tabs: Tabs, panes: Panes, splits: Splits, f: Trees,
                                            source: Id, pane: Id, vertical: bool, splitId: Id)
    requires HtmInv(tabs, panes, splits, f) && Unused(pane, tabs, panes, splits) && source in panes
    ensures var f' := SplitForest(f, source, pane, vertical, splitId);
            && f'.Keys == f.Keys
            && (exists t, n :: t in f && Part(n, f'[t]) && Joins(n, source, pane, vertical))
            && forall t :: t in f ==> && Removed(Leaves(f'[t]), pane) == Leaves(f[t])
                                      && (pane in Leaves(f'[t]) <==> source in Leaves(f[t]))
  {
    hide Ids, Leaves, Distinct, Shaped, Represents, SplitLeaf, OrdersNumberTabs, TreesOk, Covered;
    var home := HomeOf(panes, splits, f, source);
    UnusedInTrees(tabs, panes, splits, f, pane);
    var f' := SplitForest(f, source, pane, vertical, splitId);
    forall t | t in f
      ensures Removed(Leaves(f'[t]), pane) == Leaves(f[t])
      ensures pane in Leaves(f'[t]) <==> source in Leaves(f[t])
    {
      LeavesAreIds(f[t]);
      SplitLeaves(f[t], source, pane, vertical, splitId);
    }
    var n := SplitJoins(f[home], source, pane, vertical, splitId);
    assert home in f && Part(n, f'[home]);
  }

  /** Closing removes one pane, and its tab when it was the last one; the others stay, in order. */
  lemma {:induction false} CloseRemovesOnePane(tabs: Tabs, panes: Panes, splits: Splits, f: Trees,
                                               pane: Id)
    requires HtmInv(tabs, panes, splits, f)
    ensures var f' := CloseForest(f, pane);
            && (forall t :: t in f ==> (t in f' <==> Leaves(f[t]) != [pane]))
            && (forall t :: t in f' ==> t in f && Leaves(f'[t]) == Removed(Leaves(f[t]), pane))
  {
    hide Ids, Leaves, Distinct, Shaped, Represents, CloseLeaf, OrdersNumberTabs, Covered;
    var f' := CloseForest(f, pane);
    forall t | t in f
      ensures t in f' <==> Leaves(f[t]) != [pane]
      ensures t in f' ==> Leaves(f'[t]) == Removed(Leaves(f[t]), pane)
    {
      assert TreeOk(panes, splits, t, f[t]);
      AloneMeansLeaf(f[t], pane);
      if f[t] != Leaf(pane) {
        CloseLeaves(f[t], pane);
      }
    }
  }

  /** A well-shaped tree has two leaves for its every split, so only a leaf has one. */
  lemma {:induction false} AloneMeansLeaf(t: Tree, pane: Id)
    requires Shaped(t)
    ensures Leaves(t) == [pane] <==> t == Leaf(pane)
    ensures |Leaves(t)| >= if t.Node? then 2 else 1
    decreases t
  {
    if t.Node? {
      assert AllShaped(t.kids[1..], t.vertical) && t.kids[1..][0] == t.kids[1];
      AloneMeansLeaf(t.kids[0], pane);
      AloneMeansLeaf(t.kids[1], pane);
      assert AllLeaves(t.kids) == Leaves(t.kids[0]) + (Leaves(t.kids[1]) + AllLeaves(t.kids[1..][1..]));
    }
  }

  /** Closing the pane a split just added is never fatal and gives the forest back. */
  lemma {:induction false} SplitThenCloseRestores(tabs: Tabs, panes: Panes, splits: Splits, f: Trees,
                                                  source: Id, pane: Id, vertical: bool, splitId: Id)
    requires HtmInv(tabs, panes, splits, f) && Unused(pane, tabs, panes, splits) && source in panes
    ensures var f' := SplitForest(f, source, pane, vertical, splitId);
            CloseForest(f', pane) == f && !ForestFaults(f', pane)
  {
    hide Ids, Leaves, Distinct, Shaped, Represents, SplitLeaf, CloseLeaf, CloseFaults, OrdersNumberTabs, Covered;
    UnusedInTrees(tabs, panes, splits, f, pane);
    var f' := SplitForest(f, source, pane, vertical, splitId);
    forall t | t in f
      ensures f'[t] != Leaf(pane) && CloseLeaf(f'[t], pane) == f[t] && !CloseFaults(f'[t], pane)
    {
      assert TreeOk(panes, splits, t, f[t]);
      if source in Leaves(f[t]) {
        CloseUndoesSplit(f[t], source, pane, vertical, splitId);
      } else {
        SplitElsewhere(f[t], source, pane, vertical, splitId);
        LeavesAreIds(f[t]);
        CloseElsewhere(f[t], pane);
        AloneIsIn(f[t], pane);
      }
    }
  }

  lemma {:induction false} AloneIsIn(t: Tree, pane: Id)
    requires pane !in Ids(t)
    ensures t != Leaf(pane)
  {
  }

  /** The panes of the forest are the keys of the pane map, each in exactly one tab. */
  lemma {:induction false} EveryPaneInOneTab(tabs: Tabs, panes: Panes, splits: Splits, f: Trees,
                                             pane: Id)
    requires HtmInv(tabs, panes, splits, f)
    ensures pane in panes <==> exists t :: t in tabs && pane in Leaves(f[t])
    ensures forall t1, t2 :: t1 in tabs && t2 in tabs && pane in Leaves(f[t1]) && pane in Leaves(f[t2]) ==> t1 == t2
  {
    hide Ids, Leaves, Distinct, Shaped, Represents, OrdersNumberTabs;
    forall t | t in tabs
      ensures pane in Leaves(f[t]) ==> pane in panes && pane in Ids(f[t])
    {
      assert TreeOk(panes, splits, t, f[t]);
      LeavesAreIds(f[t]);
      EntriesOf(panes, splits, t, f[t]);
    }
  }

  // ----- two runs that end badly -----

  /** What the maps of a single tab hold. */
  lemma {:induction false} OneTab(tabs: Tabs, panes: Panes, splits: Splits, f: Trees, tab: Id)
    requires HtmInv(tabs, panes, splits, f) && f.Keys == {tab}
    ensures forall id :: id in panes <==> id in Leaves(f[tab])
    ensures forall id :: Unused(id, tabs, panes, splits) <==> id != tab && id !in Ids(f[tab])
  {
    hide Ids, Leaves, Distinct, Shaped, Represents, OrdersNumberTabs;
    assert TreeOk(panes, splits, tab, f[tab]);
    LeavesAreIds(f[tab]);
    EntriesOf(panes, splits, tab, f[tab]);
  }

  lemma {:induction false} PairHolds(s: Id, v: bool, a: Id, b: Id)
    ensures Leaves(Leaf(a)) == [a] && Ids(Leaf(a)) == {a}
    ensures Leaves(Node(s, v, [Leaf(a), Leaf(b)])) == [a, b]
    ensures Ids(Node(s, v, [Leaf(a), Leaf(b)])) == {s, a, b}
    ensures !CloseFaults(Node(s, v, [Leaf(a), Leaf(b)]), b)
    ensures a != b ==> CloseLeaf(Node(s, v, [Leaf(a), Leaf(b)]), b) == Leaf(a)
  {
    var kids := [Leaf(a), Leaf(b)];
    assert kids[1..] == [Leaf(b)] && kids[1..][1..] == [];
    assert AllLeaves(kids[1..]) == [b] + [] == [b];
    assert AllLeaves(kids) == [a] + [b];
    assert AllIds(kids[1..]) == {b} + {};
    assert AllIds(kids) == {a} + {b};
    assert Leaf(b) == kids[1];
  }

  /** A pane, split one way, and the new pane split the other way. */
  lemma {:induction false} TwoSplits(a: Id, b: Id, c: Id, v: bool, s1: Id, s2: Id)
    requires a != b
    ensures SplitLeaf(Leaf(a), a, b, v, s1) == Node(s1, v, [Leaf(a), Leaf(b)])
    ensures SplitLeaf(Node(s1, v, [Leaf(a), Leaf(b)]), b, c, !v, s2) ==
            Node(s1, v, [Leaf(a), Node(s2, !v, [Leaf(b), Leaf(c)])])
    ensures CloseFaults(Node(s1, v, [Leaf(a), Node(s2, !v, [Leaf(b), Leaf(c)])]), a)
  {
    var kids := [Leaf(a), Leaf(b)];
    assert kids[1..] == [Leaf(b)] && kids[1..][1..] == [];
    var nested := Node(s2, !v, [Leaf(b), Leaf(c)]);
    assert SplitAll(kids[1..], b, c, !v, s2) == [nested];
    assert SplitAll(kids, b, c, !v, s2) == [Leaf(a), nested];
    var more := [Leaf(a), nested];
    assert more[1..] == [nested] && Leaf(a) == more[0];
  }

  predicate Apart(tab: Id, a: Id, b: Id, c: Id, s1: Id, s2: Id) {
    && tab !in {b, c, s1, s2} && a !in {b, c, s1, s2} && b !in {c, s1, s2} && c !in {s1, s2}
    && s1 !in {"", s2} && s2 != ""
  }

  /** A new state and one split. */
  method SplitOnce(tab: Id, a: Id, b: Id, vertical: bool, s: Id)
    returns (outcome: Outcome, state: MultiplexerState)
    requires tab !in {b, s} && a !in {b, s} && b != s && s != ""
    ensures outcome == Done && fresh(state) && state.Valid() && state.closed == {}
    ensures state.forest == map[tab := Node(s, vertical, [Leaf(a), Leaf(b)])]
  {
    hide HtmInv, SplitLeaf, Leaves, Ids, SharesAfterSplit;
    OneSplit(a, b, vertical, s);
    PairHolds(s, vertical, a, b);
    state := new MultiplexerState(tab, a);
    OneTab(state.tabs, state.panes, state.splits, state.forest, tab);
    outcome := state.NewSplit(a, b, vertical, s);
  }

  /** A new state, one split, and a split of the new pane the other way. */
  method SplitTwice(tab: Id, a: Id, b: Id, c: Id, vertical: bool, s1: Id, s2: Id)
    returns (outcomes: seq<Outcome>, state: MultiplexerState)
    requires Apart(tab, a, b, c, s1, s2)
    ensures outcomes == [Done, Done] && fresh(state) && state.Valid() && state.closed == {}
    ensures state.forest == map[tab := Node(s1, vertical, [Leaf(a), Node(s2, !vertical, [Leaf(b), Leaf(c)])])]
  {
    hide HtmInv, SplitLeaf, CloseFaults, Leaves, Ids, SharesAfterSplit;
    TwoSplits(a, b, c, vertical, s1, s2);
    PairHolds(s1, vertical, a, b);
    var first;
    first, state := SplitOnce(tab, a, b, vertical, s1);
    OneTab(state.tabs, state.panes, state.splits, state.forest, tab);
    var second := state.NewSplit(b, c, !vertical, s2);
    outcomes := [first, second];
  }

  /** Then closing the first pane is fatal. */
  method CloseBesideASplit(tab: Id, a: Id, b: Id, c: Id, vertical: bool, s1: Id, s2: Id)
    returns (outcomes: seq<Outcome>)
    requires Apart(tab, a, b, c, s1, s2)
    ensures outcomes == [Done, Done, Fatal]
  {
    hide HtmInv, SplitLeaf, CloseFaults, Leaves, Ids, SharesAfterClose, CloseForest;
    TwoSplits(a, b, c, vertical, s1, s2);
    var state;
    outcomes, state := SplitTwice(tab, a, b, c, vertical, s1, s2);
    assert tab in state.forest && CloseFaults(state.forest[tab], a);
    var last := state.ClosePane(a);
    outcomes := outcomes + [last];
  }

  /** A pane is split off, closed and split off again under its old id: closing it then does
      nothing, and it stays in the maps. */
  method CloseAReusedPane(tab: Id, a: Id, b: Id, vertical: bool, s: Id)
    returns (outcomes: seq<Outcome>, state: MultiplexerState)
    requires tab !in {b, s} && a !in {b, s} && b != s && s != ""
    ensures outcomes == [Done, Done, Done, AlreadyClosed]
    ensures state.Valid() && b in state.panes && b in state.closed
  {
    hide HtmInv, SplitLeaf, CloseFaults, Leaves, Ids, CloseLeaf;
    PairHolds(s, vertical, a, b);
    OneSplit(a, b, vertical, s);
    var first;
    first, state := SplitOnce(tab, a, b, vertical, s);
    OneTab(state.tabs, state.panes, state.splits, state.forest, tab);
    var second := state.ClosePane(b);
    assert state.forest[tab] == Leaf(a);
    OneTab(state.tabs, state.panes, state.splits, state.forest, tab);
    var third := state.NewSplit(a, b, vertical, s);
    OneTab(state.tabs, state.panes, state.splits, state.forest, tab);
    var last := state.ClosePane(b);
    outcomes := [first, second, third, last];
  }

  /** With a tab whose id is empty a pane can be split from itself. The pane of that tab is then in
      no tab and no split: its parent is the tab still, and closing it would look for a tab that
      has it as child, and find none. */
  method SplitOfItself(tab: Id, a: Id, p: Id, q: Id, vertical: bool, s: Id)
    returns (outcomes: seq<Outcome>, fatal: bool, state: MultiplexerState)
    requires tab !in {"", p, q, s} && a !in {"", p, q, s} && p !in {"", q, s} && q !in {"", s} && s != ""
    ensures outcomes == [Done, Done] && fatal
    ensures p in state.panes && state.panes[p].parentId == "" && "" in state.tabs
    ensures forall f :: !HtmInv(state.tabs, state.panes, state.splits, f)
  {
    hide HtmInv, Leaves, Ids;
    PairHolds(s, vertical, a, p);
    state := new MultiplexerState(tab, a);
    OneTab(state.tabs, state.panes, state.splits, state.forest, tab);
    TabChild(state.tabs, state.panes, state.splits, state.forest, tab);
    assert Unused("", state.tabs, state.panes, state.splits) && Unused(p, state.tabs, state.panes, state.splits);
    assert Unused(q, state.tabs, state.panes, state.splits) && Unused(s, state.tabs, state.panes, state.splits);
    var first := state.NewTab("", p);
    var second := state.NewSplit(q, q, vertical, s);
    outcomes := [first, second];
    fatal := state.EraseTabOf(p);
  }

  lemma {:induction false} TabChild(tabs: Tabs, panes: Panes, splits: Splits, f: Trees, tab: Id)
    requires HtmInv(tabs, panes, splits, f) && f.Keys == {tab}
    ensures tabs.Keys == {tab} && tabs[tab].child == f[tab].id
  {
    hide TreesOk, Covered, OrdersNumberTabs;
  }

  lemma {:induction false} OneSplit(a: Id, b: Id, v: bool, s: Id)
    ensures SplitLeaf(Leaf(a), a, b, v, s) == Node(s, v, [Leaf(a), Leaf(b)])
  {
  }
}
