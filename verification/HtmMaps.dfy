/** The three maps of MultiplexerState, linked by parent ids and child lists, and when they
    stand for a forest (src/htm/MultiplexerState.cpp). */
module HtmMaps {
  import opened Forest
  import opened ForestProof

  datatype Pane = Pane(id: Id, parentId: Id)

  datatype Split = Split(id: Id, parentId: Id, vertical: bool, children: seq<Id>, sizes: seq<real>)

  datatype Tab = Tab(id: Id, child: Id, order: int)

  type Panes = map<Id, Pane>
  type Splits = map<Id, Split>

  /** The entries under `parent` spell out the tree: parent ids and child lists agree. */
  ghost predicate Represents(panes: Panes, splits: Splits, parent: Id, t: Tree)
    decreases t, 1
  {
    match t
    case Leaf(id) => id in panes && panes[id] == Pane(id, parent)
    case Node(id, vertical, kids) =>
      && id in splits
      && splits[id] == Split(id, parent, vertical, Roots(kids), splits[id].sizes)
      && |splits[id].sizes| == |kids|
      && RepresentsAll(panes, splits, id, kids)
  }

  ghost predicate RepresentsAll(panes: Panes, splits: Splits, parent: Id, ts: seq<Tree>)
    decreases ts, 0
  {
    ts == [] || (Represents(panes, splits, parent, ts[0]) && RepresentsAll(panes, splits, parent, ts[1..]))
  }

  /** Every entry of these ids is also in the other maps. */
  ghost predicate Keeps(panes: Panes, splits: Splits, panes': Panes, splits': Splits, ids: set<Id>) {
    && (forall id :: id in ids && id in panes ==> id in panes' && panes'[id] == panes[id])
    && (forall id :: id in ids && id in splits ==> id in splits' && splits'[id] == splits[id])
  }

  /** A tree only depends on the entries of its own ids. */
  lemma {:induction false} Frame(panes: Panes, splits: Splits, panes': Panes, splits': Splits, parent: Id, t: Tree)
    requires Represents(panes, splits, parent, t) && Keeps(panes, splits, panes', splits', Ids(t))
    ensures Represents(panes', splits', parent, t)
    decreases t, 1
  {
    if t.Node? {
      FrameAll(panes, splits, panes', splits', t.id, t.kids);
    }
  }

  lemma {:induction false} FrameAll(panes: Panes, splits: Splits, panes': Panes, splits': Splits, parent: Id,
                                    ts: seq<Tree>)
    requires RepresentsAll(panes, splits, parent, ts) && Keeps(panes, splits, panes', splits', AllIds(ts))
    ensures RepresentsAll(panes', splits', parent, ts)
    decreases ts, 0
  {
    if ts != [] {
      Frame(panes, splits, panes', splits', parent, ts[0]);
      FrameAll(panes, splits, panes', splits', parent, ts[1..]);
    }
  }

  /** The ids of a represented tree are entries, its leaves are the panes among them. */
  lemma {:induction false} EntriesOf(panes: Panes, splits: Splits, parent: Id, t: Tree)
    requires Represents(panes, splits, parent, t) && panes.Keys !! splits.Keys
    ensures Ids(t) <= panes.Keys + splits.Keys
    ensures forall id :: id in Ids(t) ==> (id in panes <==> id in Leaves(t))
    decreases t, 1
  {
    if t.Node? {
      EntriesOfAll(panes, splits, t.id, t.kids);
      AllLeavesAreIds(t.kids);
    }
  }

  lemma {:induction false} EntriesOfAll(panes: Panes, splits: Splits, parent: Id, ts: seq<Tree>)
    requires RepresentsAll(panes, splits, parent, ts) && panes.Keys !! splits.Keys
    ensures AllIds(ts) <= panes.Keys + splits.Keys
    ensures forall id :: id in AllIds(ts) ==> (id in panes <==> id in AllLeaves(ts))
    decreases ts, 0
  {
    if ts != [] {
      EntriesOf(panes, splits, parent, ts[0]);
      EntriesOfAll(panes, splits, parent, ts[1..]);
      LeavesAreIds(ts[0]);
      AllLeavesAreIds(ts[1..]);
    }
  }

  /** A pane's parent id names the split it sits in, or what holds the whole tree. */
  lemma {:induction false} ParentOf(panes: Panes, splits: Splits, parent: Id, t: Tree, pane: Id)
    requires Represents(panes, splits, parent, t) && pane in Leaves(t)
    ensures pane in panes && panes[pane].id == pane
    ensures t == Leaf(pane) ==> panes[pane].parentId == parent
    ensures t != Leaf(pane) ==> panes[pane].parentId in Ids(t) && panes[pane].parentId in splits
    decreases t, 1
  {
    if t.Node? {
      ParentOfAll(panes, splits, t.id, t.kids, pane);
    }
  }

  lemma {:induction false} ParentOfAll(panes: Panes, splits: Splits, parent: Id, ts: seq<Tree>, pane: Id)
    requires RepresentsAll(panes, splits, parent, ts) && pane in AllLeaves(ts)
    ensures pane in panes && panes[pane].id == pane
    ensures Leaf(pane) in ts ==> panes[pane].parentId == parent
    ensures Leaf(pane) !in ts ==> panes[pane].parentId in AllIds(ts) && panes[pane].parentId in splits
    decreases ts, 0
  {
    if pane in Leaves(ts[0]) {
      ParentOf(panes, splits, parent, ts[0], pane);
      if Leaf(pane) in ts[1..] {
        LeafEntry(panes, splits, parent, ts[1..], pane);
      }
    } else {
      ParentOfAll(panes, splits, parent, ts[1..], pane);
    }
  }

  lemma {:induction false} LeafEntry(panes: Panes, splits: Splits, parent: Id, ts: seq<Tree>, pane: Id)
    requires RepresentsAll(panes, splits, parent, ts) && Leaf(pane) in ts
    ensures pane in panes && panes[pane] == Pane(pane, parent)
  {
    if ts[0] != Leaf(pane) {
      LeafEntry(panes, splits, parent, ts[1..], pane);
    }
  }

  /** The first occurrence of `x`, replaced. */
  function Replaced(s: seq<Id>, x: Id, y: Id): (r: seq<Id>)
    ensures |r| == |s|
  {
    if s == [] then [] else if s[0] == x then [y] + s[1..] else [s[0]] + Replaced(s[1..], x, y)
  }

  lemma {:induction false} ReplacedAbsent(s: seq<Id>, x: Id, y: Id)
    requires x !in s
    ensures Replaced(s, x, y) == s
  {
    if s != [] {
      ReplacedAbsent(s[1..], x, y);
    }
  }

  /** The first occurrence of `x`, taken out. */
  function Without(s: seq<Id>, x: Id): (r: seq<Id>)
    ensures |r| == if x in s then |s| - 1 else |s|
  {
    if s == [] then [] else if s[0] == x then s[1..] else [s[0]] + Without(s[1..], x)
  }

  lemma {:induction false} RootsCons(ts: seq<Tree>)
    requires ts != []
    ensures Roots(ts) == [ts[0].id] + Roots(ts[1..])
    ensures Roots(ts)[1..] == Roots(ts[1..])
  {
  }

  lemma {:induction false} RootsAreIds(ts: seq<Tree>, id: Id)
    requires id in Roots(ts)
    ensures id in AllIds(ts)
  {
    RootsCons(ts);
    if ts[0].id != id {
      RootsAreIds(ts[1..], id);
    }
  }

  // ----- splitting, continuing a split -----

  /** `pane` is appended to the split `p` that holds the source. */
  ghost predicate Appended(panes: Panes, splits: Splits, panes': Panes, splits': Splits, p: Id, pane: Id) {
    && p in splits && p in splits'
    && panes' == panes[pane := Pane(pane, p)]
    && splits' == splits[p := splits[p].(children := splits[p].children + [pane], sizes := splits'[p].sizes)]
    && |splits'[p].sizes| == |splits[p].sizes| + 1
  }

  lemma {:induction false} AppendRepresents(panes: Panes, splits: Splits, panes': Panes, splits': Splits,
                                            parent: Id, t: Tree, source: Id, pane: Id, splitId: Id, p: Id)
    requires source in panes && panes[source].parentId == p
    requires Represents(panes, splits, parent, t) && Distinct(t)
    requires t.Node? && source in Leaves(t) && pane !in Ids(t) && pane !in panes
    requires Appended(panes, splits, panes', splits', p, pane)
    ensures Represents(panes', splits', parent, SplitLeaf(t, source, pane, splits[p].vertical, splitId))
    decreases t, 1
  {
    ParentOf(panes, splits, parent, t, source);
    ParentOfAll(panes, splits, t.id, t.kids, source);
    if Leaf(source) in t.kids {
      FrameAll(panes, splits, panes', splits', t.id, t.kids);
      LeafRepresents(panes', splits', t.id, pane);
      RepresentsConcat(panes', splits', t.id, t.kids, [Leaf(pane)]);
      assert Roots(t.kids + [Leaf(pane)]) == Roots(t.kids) + [pane];
    } else {
      AppendRepresentsAll(panes, splits, panes', splits', t.id, t.kids, source, pane, splitId, p);
    }
  }

  lemma {:induction false} LeafRepresents(panes: Panes, splits: Splits, parent: Id, id: Id)
    requires id in panes && panes[id] == Pane(id, parent)
    ensures RepresentsAll(panes, splits, parent, [Leaf(id)])
  {
    assert [Leaf(id)][1..] == [];
    assert RepresentsAll(panes, splits, parent, [Leaf(id)][1..]);
  }

  lemma {:induction false} RepresentsConcat(panes: Panes, splits: Splits, parent: Id, a: seq<Tree>, b: seq<Tree>)
    ensures RepresentsAll(panes, splits, parent, a + b) <==>
            RepresentsAll(panes, splits, parent, a) && RepresentsAll(panes, splits, parent, b)
  {
    if a == [] {
      assert a + b == b;
    } else {
      assert (a + b)[1..] == a[1..] + b;
      RepresentsConcat(panes, splits, parent, a[1..], b);
    }
  }

  lemma {:induction false} AppendRepresentsAll(panes: Panes, splits: Splits, panes': Panes, splits': Splits,
                                               parent: Id, ts: seq<Tree>, source: Id, pane: Id, splitId: Id, p: Id)
    requires source in panes && panes[source].parentId == p
    requires RepresentsAll(panes, splits, parent, ts) && AllDistinct(ts)
    requires Leaf(source) !in ts && source in AllLeaves(ts) && pane !in AllIds(ts) && pane !in panes
    requires Appended(panes, splits, panes', splits', p, pane)
    ensures var ts' := SplitAll(ts, source, pane, splits[p].vertical, splitId);
            RepresentsAll(panes', splits', parent, ts') && Roots(ts') == Roots(ts)
    decreases ts, 0
  {
    var v := splits[p].vertical;
    RootsCons(ts);
    RootsCons(SplitAll(ts, source, pane, v, splitId));
    if source in Leaves(ts[0]) {
      ParentOf(panes, splits, parent, ts[0], source);
      AppendRepresents(panes, splits, panes', splits', parent, ts[0], source, pane, splitId, p);
      LeavesAreIds(ts[0]);
      AllLeavesAreIds(ts[1..]);
      SplitAllElsewhere(ts[1..], source, pane, v, splitId);
      FrameAll(panes, splits, panes', splits', parent, ts[1..]);
    } else {
      ParentOfAll(panes, splits, parent, ts[1..], source);
      SplitElsewhere(ts[0], source, pane, v, splitId);
      Frame(panes, splits, panes', splits', parent, ts[0]);
      AppendRepresentsAll(panes, splits, panes', splits', parent, ts[1..], source, pane, splitId, p);
    }
  }

  // ----- splitting, opening a new split -----

  /** `source` and `pane` move into the new split `splitId`, which takes the place of
      `source` under `p`; only when `p` is a split does it have a child list to correct. */
  ghost predicate Nested(panes: Panes, splits: Splits, panes': Panes, splits': Splits,
                         p: Id, source: Id, pane: Id, vertical: bool, splitId: Id)
  {
    && panes' == panes[pane := Pane(pane, splitId)][source := Pane(source, splitId)]
    && splitId in splits'
    && |splits'[splitId].sizes| == 2
    && var added := splits[splitId := Split(splitId, p, vertical, [source, pane], splits'[splitId].sizes)];
       splits' == if p in splits then added[p := splits[p].(children := Replaced(splits[p].children, source, splitId))]
                  else added
  }

  lemma {:induction false} NestedKeeps(panes: Panes, splits: Splits, panes': Panes, splits': Splits,
                                       p: Id, source: Id, pane: Id, vertical: bool, splitId: Id, ids: set<Id>)
    requires Nested(panes, splits, panes', splits', p, source, pane, vertical, splitId)
    requires pane !in ids && source !in ids && splitId !in ids && p !in ids
    ensures Keeps(panes, splits, panes', splits', ids)
  {
  }

  lemma {:induction false} NestRepresents(panes: Panes, splits: Splits, panes': Panes, splits': Splits,
                                          parent: Id, t: Tree, source: Id, pane: Id, vertical: bool, splitId: Id, p: Id)
    requires source in panes && panes[source].parentId == p
    requires Represents(panes, splits, parent, t) && Distinct(t) && (parent in splits ==> parent !in Ids(t))
    requires source in Leaves(t) && pane !in Ids(t) && splitId !in Ids(t) && splitId !in splits && pane != source
    requires (p in splits ==> splits[p].vertical != vertical) && (t.Node? ==> p in splits) && splitId != p
    requires Nested(panes, splits, panes', splits', p, source, pane, vertical, splitId)
    ensures Represents(panes', splits', parent, SplitLeaf(t, source, pane, vertical, splitId))
    decreases t, 1
  {
    ParentOf(panes, splits, parent, t, source);
    match t
    case Leaf(_) =>
      var kids := [Leaf(source), Leaf(pane)];
      assert kids == [Leaf(source)] + [Leaf(pane)];
      LeafRepresents(panes', splits', splitId, source);
      LeafRepresents(panes', splits', splitId, pane);
      RepresentsConcat(panes', splits', splitId, [Leaf(source)], [Leaf(pane)]);
      assert Roots(kids) == [source, pane];
    case Node(id, v, kids) =>
      ParentOfAll(panes, splits, id, kids, source);
      NestRepresentsAll(panes, splits, panes', splits', id, kids, source, pane, vertical, splitId, p);
  }

  lemma {:induction false} NestRepresentsAll(panes: Panes, splits: Splits, panes': Panes, splits': Splits,
                                             parent: Id, ts: seq<Tree>, source: Id, pane: Id, vertical: bool,
                                             splitId: Id, p: Id)
    requires source in panes && panes[source].parentId == p
    requires RepresentsAll(panes, splits, parent, ts) && AllDistinct(ts) && parent !in AllIds(ts)
    requires source in AllLeaves(ts) && pane !in AllIds(ts) && splitId !in AllIds(ts)
    requires splitId !in splits && pane != source
    requires p in splits && splits[p].vertical != vertical && splitId != p
    requires Nested(panes, splits, panes', splits', p, source, pane, vertical, splitId)
    ensures var ts' := SplitAll(ts, source, pane, vertical, splitId);
            && RepresentsAll(panes', splits', parent, ts')
            && Roots(ts') == if p == parent then Replaced(Roots(ts), source, splitId)
                             else Roots(ts)
    decreases ts, 0
  {
    hide Represents, Distinct, Leaves, Nested;
    RootsCons(ts);
    RootsCons(SplitAll(ts, source, pane, vertical, splitId));
    if source in Leaves(ts[0]) {
      ParentOf(panes, splits, parent, ts[0], source);
      NestRepresents(panes, splits, panes', splits', parent, ts[0], source, pane, vertical, splitId, p);
      LeavesAreIds(ts[0]);
      AllLeavesAreIds(ts[1..]);
      SplitAllElsewhere(ts[1..], source, pane, vertical, splitId);
      NestedKeeps(panes, splits, panes', splits', p, source, pane, vertical, splitId, AllIds(ts[1..]));
      FrameAll(panes, splits, panes', splits', parent, ts[1..]);
    } else {
      ParentOfAll(panes, splits, parent, ts[1..], source);
      AllLeavesAreIds(ts[1..]);
      SplitElsewhere(ts[0], source, pane, vertical, splitId);
      NestedKeeps(panes, splits, panes', splits', p, source, pane, vertical, splitId, Ids(ts[0]));
      Frame(panes, splits, panes', splits', parent, ts[0]);
      NestRepresentsAll(panes, splits, panes', splits', parent, ts[1..], source, pane, vertical, splitId, p);
      KidIds(ts, 0);
    }
  }

  // ----- closing -----

  lemma {:induction false} WithoutRoots(ts: seq<Tree>, pane: Id)
    requires AllDistinct(ts) && Leaf(pane) in ts
    ensures Roots(WithoutLeaf(ts, pane)) == Without(Roots(ts), pane)
    ensures pane in Roots(ts)
  {
    RootsCons(ts);
    if ts[0] != Leaf(pane) {
      LeafKid(ts[1..], pane);
      KidIds(ts, 0);
      WithoutRoots(ts[1..], pane);
      var rest := WithoutLeaf(ts, pane);
      RootsCons(rest);
      assert rest[1..] == WithoutLeaf(ts[1..], pane);
    }
  }

  /** The kids that stay are represented as before, if their entries stay. */
  lemma {:induction false} FrameWithout(panes: Panes, splits: Splits, panes': Panes, splits': Splits, parent: Id,
                                        ts: seq<Tree>, pane: Id)
    requires RepresentsAll(panes, splits, parent, ts) && AllDistinct(ts) && Leaf(pane) in ts
    requires Keeps(panes, splits, panes', splits', AllIds(ts) - {pane})
    ensures RepresentsAll(panes', splits', parent, WithoutLeaf(ts, pane))
  {
    if ts[0] == Leaf(pane) {
      FrameAll(panes, splits, panes', splits', parent, ts[1..]);
    } else {
      LeafKid(ts[1..], pane);
      Frame(panes, splits, panes', splits', parent, ts[0]);
      FrameWithout(panes, splits, panes', splits', parent, ts[1..], pane);
      var rest := WithoutLeaf(ts, pane);
      assert rest[1..] == WithoutLeaf(ts[1..], pane);
    }
  }

  /** Closing faults exactly when the pane's split has two children and the other one is
      a split. */
  lemma {:induction false} FaultsIff(panes: Panes, splits: Splits, parent: Id, t: Tree, pane: Id, p: Id)
    requires Represents(panes, splits, parent, t) && Distinct(t) && panes.Keys !! splits.Keys
    requires t.Node? && pane in Leaves(t) && pane in panes && panes[pane].parentId == p
    ensures p in splits && pane in splits[p].children
    ensures CloseFaults(t, pane) <==>
            |splits[p].children| == 2 && Without(splits[p].children, pane)[0] in splits
    ensures |splits[p].children| == 2 ==>
              var other := Without(splits[p].children, pane)[0];
              other != pane && (other in panes || other in splits)
    decreases t, 1
  {
    ParentOfAll(panes, splits, t.id, t.kids, pane);
    if Leaf(pane) in t.kids {
      var rest := WithoutLeaf(t.kids, pane);
      WithoutRoots(t.kids, pane);
      FrameWithout(panes, splits, panes, splits, t.id, t.kids, pane);
      if |rest| == 1 {
        assert Represents(panes, splits, t.id, rest[0]);
        WithoutLeafIds(t.kids, pane);
        KidIds(rest, 0);
      }
    } else {
      FaultsIffAll(panes, splits, t.id, t.kids, pane, p);
    }
  }

  lemma {:induction false} FaultsIffAll(panes: Panes, splits: Splits, parent: Id, ts: seq<Tree>, pane: Id, p: Id)
    requires RepresentsAll(panes, splits, parent, ts) && AllDistinct(ts) && panes.Keys !! splits.Keys
    requires Leaf(pane) !in ts && pane in AllLeaves(ts) && pane in panes && panes[pane].parentId == p
    ensures p in splits && pane in splits[p].children
    ensures AnyCloseFaults(ts, pane) <==>
            |splits[p].children| == 2 && Without(splits[p].children, pane)[0] in splits
    ensures |splits[p].children| == 2 ==>
              var other := Without(splits[p].children, pane)[0];
              other != pane && (other in panes || other in splits)
    decreases ts, 0
  {
    LeavesAreIds(ts[0]);
    AllLeavesAreIds(ts[1..]);
    if pane in Leaves(ts[0]) {
      assert ts[0].Node?;
      FaultsIff(panes, splits, parent, ts[0], pane, p);
      CloseAllElsewhere(ts[1..], pane);
    } else {
      CloseElsewhere(ts[0], pane);
      FaultsIffAll(panes, splits, parent, ts[1..], pane, p);
    }
  }

  /** `pane` leaves a split `p` that keeps two children or more. */
  ghost predicate Shrunk(panes: Panes, splits: Splits, panes': Panes, splits': Splits, p: Id, pane: Id) {
    && p in splits && p in splits'
    && panes' == panes - {pane}
    && splits' == splits[p := splits[p].(children := Without(splits[p].children, pane), sizes := splits'[p].sizes)]
    && |splits'[p].sizes| == |splits'[p].children| >= 2
  }

  lemma {:induction false} ShrinkRepresents(panes: Panes, splits: Splits, panes': Panes, splits': Splits,
                                            parent: Id, t: Tree, pane: Id, p: Id)
    requires Represents(panes, splits, parent, t) && Distinct(t) && panes.Keys !! splits.Keys
    requires t.Node? && pane in Leaves(t) && pane in panes && panes[pane].parentId == p
    requires Shrunk(panes, splits, panes', splits', p, pane)
    ensures Represents(panes', splits', parent, CloseLeaf(t, pane)) && CloseLeaf(t, pane).id == t.id
    decreases t, 1
  {
    ParentOfAll(panes, splits, t.id, t.kids, pane);
    if Leaf(pane) in t.kids {
      WithoutRoots(t.kids, pane);
      FrameWithout(panes, splits, panes', splits', t.id, t.kids, pane);
    } else {
      ShrinkRepresentsAll(panes, splits, panes', splits', t.id, t.kids, pane, p);
    }
  }

  lemma {:induction false} ShrinkRepresentsAll(panes: Panes, splits: Splits, panes': Panes, splits': Splits,
                                               parent: Id, ts: seq<Tree>, pane: Id, p: Id)
    requires RepresentsAll(panes, splits, parent, ts) && AllDistinct(ts) && panes.Keys !! splits.Keys
    requires Leaf(pane) !in ts && pane in AllLeaves(ts) && pane in panes && panes[pane].parentId == p
    requires Shrunk(panes, splits, panes', splits', p, pane)
    ensures RepresentsAll(panes', splits', parent, CloseAll(ts, pane)) && Roots(CloseAll(ts, pane)) == Roots(ts)
    decreases ts, 0
  {
    hide Represents, Distinct, CloseLeaf;
    RootsCons(ts);
    RootsCons(CloseAll(ts, pane));
    LeavesAreIds(ts[0]);
    AllLeavesAreIds(ts[1..]);
    if pane in Leaves(ts[0]) {
      ParentOf(panes, splits, parent, ts[0], pane);
      LeafOrNode(ts[0], pane);
      ShrinkRepresents(panes, splits, panes', splits', parent, ts[0], pane, p);
      CloseAllElsewhere(ts[1..], pane);
      FrameAll(panes, splits, panes', splits', parent, ts[1..]);
    } else {
      ParentOfAll(panes, splits, parent, ts[1..], pane);
      CloseElsewhere(ts[0], pane);
      EntriesOf(panes, splits, parent, ts[0]);
      Frame(panes, splits, panes', splits', parent, ts[0]);
      ShrinkRepresentsAll(panes, splits, panes', splits', parent, ts[1..], pane, p);
    }
  }

  /** `pane` leaves a split `p` of two, and the pane `only` takes the split's place. */
  ghost predicate Collapsed(panes: Panes, splits: Splits, panes': Panes, splits': Splits, p: Id, pane: Id, only: Id) {
    && p in splits && Without(splits[p].children, pane) == [only] && only in panes
    && var above := splits[p].parentId;
       && panes' == (panes - {pane})[only := Pane(only, above)]
       && splits' == (if above in splits
                      then splits[above := splits[above].(children := Replaced(splits[above].children, p, only))]
                      else splits) - {p}
  }

  lemma {:induction false} CollapseRepresents(panes: Panes, splits: Splits, panes': Panes, splits': Splits,
                                              parent: Id, t: Tree, pane: Id, p: Id, only: Id)
    requires Represents(panes, splits, parent, t) && Distinct(t) && panes.Keys !! splits.Keys
    requires parent in splits ==> parent !in Ids(t)
    requires t.Node? && pane in Leaves(t) && pane in panes && panes[pane].parentId == p
    requires Collapsed(panes, splits, panes', splits', p, pane, only)
    ensures Represents(panes', splits', parent, CloseLeaf(t, pane))
    ensures CloseLeaf(t, pane).id == if p == t.id then only else t.id
    ensures p in Ids(t) && (p == t.id ==> splits[p].parentId == parent)
    ensures p != t.id ==> splits[p].parentId in Ids(t)
    ensures only in Ids(t) && only != pane
    decreases t, 1
  {
    ParentOfAll(panes, splits, t.id, t.kids, pane);
    if Leaf(pane) in t.kids {
      var rest := WithoutLeaf(t.kids, pane);
      WithoutRoots(t.kids, pane);
      WithoutLeafIds(t.kids, pane);
      FrameWithout(panes, splits, panes, splits, t.id, t.kids, pane);
      assert Roots(rest) == [only] && rest[0].id == Roots(rest)[0];
      assert Represents(panes, splits, t.id, rest[0]) && rest[0] == Leaf(only);
      KidIds(rest, 0);
    } else {
      CollapseRepresentsAll(panes, splits, panes', splits', t.id, t.kids, pane, p, only);
    }
  }

  lemma {:induction false} CollapseRepresentsAll(panes: Panes, splits: Splits, panes': Panes, splits': Splits,
                                                 parent: Id, ts: seq<Tree>, pane: Id, p: Id, only: Id)
    requires RepresentsAll(panes, splits, parent, ts) && AllDistinct(ts) && panes.Keys !! splits.Keys
    requires parent !in AllIds(ts) && parent in splits
    requires Leaf(pane) !in ts && pane in AllLeaves(ts) && pane in panes && panes[pane].parentId == p
    requires Collapsed(panes, splits, panes', splits', p, pane, only)
    ensures RepresentsAll(panes', splits', parent, CloseAll(ts, pane))
    ensures Roots(CloseAll(ts, pane)) == if splits[p].parentId == parent then Replaced(Roots(ts), p, only) else Roots(ts)
    ensures p in AllIds(ts) && (splits[p].parentId == parent || splits[p].parentId in AllIds(ts))
    ensures only in AllIds(ts) && only != pane
    decreases ts, 0
  {
    hide Represents, Distinct, CloseLeaf;
    RootsCons(ts);
    RootsCons(CloseAll(ts, pane));
    LeavesAreIds(ts[0]);
    AllLeavesAreIds(ts[1..]);
    KidIds(ts, 0);
    if pane in Leaves(ts[0]) {
      ParentOf(panes, splits, parent, ts[0], pane);
      LeafOrNode(ts[0], pane);
      CollapseRepresents(panes, splits, panes', splits', parent, ts[0], pane, p, only);
      CloseAllElsewhere(ts[1..], pane);
      FrameAll(panes, splits, panes', splits', parent, ts[1..]);
    } else {
      ParentOfAll(panes, splits, parent, ts[1..], pane);
      CloseElsewhere(ts[0], pane);
      CollapseRepresentsAll(panes, splits, panes', splits', parent, ts[1..], pane, p, only);
      Frame(panes, splits, panes', splits', parent, ts[0]);
    }
  }

  lemma {:induction false} LeafOrNode(t: Tree, pane: Id)
    requires pane in Leaves(t)
    ensures t == Leaf(pane) || t.Node?
  {
  }

  /** A close takes out the pane's id, and its split's when that had two children. */
  lemma {:induction false} CloseIds(panes: Panes, splits: Splits, parent: Id, t: Tree, pane: Id, p: Id)
    requires Represents(panes, splits, parent, t) && Distinct(t)
    requires t.Node? && pane in Leaves(t) && pane in panes && panes[pane].parentId == p
    ensures p in splits && p in Ids(t)
    ensures Ids(CloseLeaf(t, pane)) == Ids(t) - {pane} - if |splits[p].children| == 2 then {p} else {}
    decreases t, 1
  {
    ParentOfAll(panes, splits, t.id, t.kids, pane);
    if Leaf(pane) in t.kids {
      var rest := WithoutLeaf(t.kids, pane);
      WithoutLeafIds(t.kids, pane);
      LeafKid(t.kids, pane);
      if |rest| == 1 {
        assert rest[1..] == [];
        assert AllIds(rest) == Ids(rest[0]) + AllIds([]);
      }
    } else {
      CloseAllIds(panes, splits, t.id, t.kids, pane, p);
      AllLeavesAreIds(t.kids);
    }
  }

  lemma {:induction false} CloseAllIds(panes: Panes, splits: Splits, parent: Id, ts: seq<Tree>, pane: Id, p: Id)
    requires RepresentsAll(panes, splits, parent, ts) && AllDistinct(ts)
    requires Leaf(pane) !in ts && pane in AllLeaves(ts) && pane in panes && panes[pane].parentId == p
    ensures p in splits && p in AllIds(ts)
    ensures AllIds(CloseAll(ts, pane)) == AllIds(ts) - {pane} - if |splits[p].children| == 2 then {p} else {}
    decreases ts, 0
  {
    hide Represents, Distinct, CloseLeaf;
    LeavesAreIds(ts[0]);
    AllLeavesAreIds(ts[1..]);
    if pane in Leaves(ts[0]) {
      LeafOrNode(ts[0], pane);
      CloseIds(panes, splits, parent, ts[0], pane, p);
      CloseAllElsewhere(ts[1..], pane);
    } else {
      CloseElsewhere(ts[0], pane);
      CloseAllIds(panes, splits, parent, ts[1..], pane, p);
    }
    assert CloseAll(ts, pane)[1..] == CloseAll(ts[1..], pane);
  }
}
