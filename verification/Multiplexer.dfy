/** The tabs, splits and panes of HTM, changed in place (src/htm/MultiplexerState.cpp). */
module Multiplexer {
  import opened Forest
  import opened HtmMaps
  import opened HtmState
  import opened HtmSteps

  datatype Outcome = Done | AlreadyClosed | Fatal

  /** Closing `pane` would leave a split as the only child of a split. */
  ghost predicate ForestFaults(f: Trees, pane: Id) {
    exists t :: t in f && CloseFaults(f[t], pane)
  }

  // ----- sizes -----

  function Sum(sizes: seq<real>): real {
    if sizes == [] then 0.0 else sizes[0] + Sum(sizes[1..])
  }

  function Scaled(sizes: seq<real>, factor: real): (r: seq<real>)
    ensures |r| == |sizes|
    ensures forall i :: 0 <= i < |r| ==> r[i] == sizes[i] * factor
  {
    seq(|sizes|, i requires 0 <= i < |sizes| => sizes[i] * factor)
  }

  /** The position of the first occurrence. */
  function IndexOf(s: seq<Id>, x: Id): (i: nat)
    requires x in s
    ensures i < |s| && s[i] == x && x !in s[..i]
  {
    if s[0] == x then 0 else
      var i := IndexOf(s[1..], x) + 1;
      assert s[..i] == [s[0]] + s[1..][..i - 1];
      i
  }

  /** Halved, with room for one more. */
  function SharesWithOneMore(sizes: seq<real>): (r: seq<real>)
    ensures |r| == |sizes| + 1
  {
    Scaled(sizes, 0.5) + [0.5]
  }

  function Erased<T>(s: seq<T>, i: nat): (r: seq<T>)
    requires i < |s|
    ensures |r| == |s| - 1
  {
    s[..i] + s[i + 1..]
  }

  /** The old over the new number of children. */
  function Growth(newSize: nat): real
    requires newSize > 0
  {
    (newSize + 1) as real / newSize as real
  }

  /** The shares of the others, scaled by the old over the new number of children. */
  function SharesWithout(sizes: seq<real>, i: nat): (r: seq<real>)
    requires i < |sizes| && |sizes| > 1
    ensures |r| == |sizes| - 1
  {
    Scaled(Erased(sizes, i), Growth(|sizes| - 1))
  }

  lemma {:induction false} SumConcat(a: seq<real>, b: seq<real>)
    ensures Sum(a + b) == Sum(a) + Sum(b)
  {
    if a == [] {
      assert a + b == b;
    } else {
      assert (a + b)[1..] == a[1..] + b;
      SumConcat(a[1..], b);
    }
  }

  lemma {:induction false} SumScaled(sizes: seq<real>, factor: real)
    ensures Sum(Scaled(sizes, factor)) == Sum(sizes) * factor
  {
    if sizes != [] {
      var a, b := Scaled(sizes, factor)[1..], Scaled(sizes[1..], factor);
      forall i | 0 <= i < |a|
        ensures a[i] == b[i]
      {
        assert sizes[1..][i] == sizes[i + 1];
      }
      assert a == b;
      SumScaled(sizes[1..], factor);
    }
  }

  /** Continuing a split keeps the shares summing to one. */
  lemma {:induction false} OneMoreKeepsWhole(sizes: seq<real>)
    ensures Sum(SharesWithOneMore(sizes)) == 1.0 <==> Sum(sizes) == 1.0
  {
    SumScaled(sizes, 0.5);
    SumConcat(Scaled(sizes, 0.5), [0.5]);
    assert Sum([0.5]) == 0.5 + Sum([]);
  }

  lemma {:induction false} SumErased(sizes: seq<real>, i: nat)
    requires i < |sizes|
    ensures Sum(Erased(sizes, i)) == Sum(sizes) - sizes[i]
  {
    if i == 0 {
      assert Erased(sizes, i) == sizes[1..];
    } else {
      SumErased(sizes[1..], i - 1);
      assert Erased(sizes, i)[1..] == Erased(sizes[1..], i - 1);
    }
  }

  /** Closing keeps the total of the shares if and only if the removed share was the average. */
  lemma {:induction false} CloseKeepsTotalIff(sizes: seq<real>, i: nat)
    requires i < |sizes| && |sizes| > 1
    ensures Sum(SharesWithout(sizes, i)) == Sum(sizes) <==> sizes[i] * |sizes| as real == Sum(sizes)
  {
    hide Sum, Scaled, Erased;
    var n := |sizes| as real;
    SumScaled(Erased(sizes, i), Growth(|sizes| - 1));
    SumErased(sizes, i);
    RescaleArithmetic(Sum(sizes), sizes[i], n);
  }

  lemma {:induction false} RescaleArithmetic(total: real, share: real, n: real)
    requires n > 1.0
    ensures (total - share) * (n / (n - 1.0)) == total <==> share * n == total
  {
    var q := n / (n - 1.0);
    assert q * (n - 1.0) == n;
    assert (total - share) * q * (n - 1.0) == (total - share) * n;
    if (total - share) * q == total {
      assert total * (n - 1.0) == (total - share) * n;
    }
    if share * n == total {
      assert (total - share) * n == total * (n - 1.0);
      assert ((total - share) * q - total) * (n - 1.0) == 0.0;
    }
  }

  /** Split a lone pane, continue the split, and close the newest pane: a quarter is lost. */
  lemma {:induction false} ClosingMayLoseSpace()
    ensures var sizes := SharesWithOneMore([0.5, 0.5]);
            Sum(sizes) == 1.0 && Sum(SharesWithout(sizes, 2)) == 0.75
  {
    var sizes := SharesWithOneMore([0.5, 0.5]);
    assert sizes == [0.25, 0.25, 0.5];
    assert Sum(sizes) == 0.25 + (0.25 + (0.5 + Sum([]))) by {
      assert sizes[1..] == [0.25, 0.5] && sizes[1..][1..] == [0.5] && [0.5][1..] == [];
    }
    var left := SharesWithout(sizes, 2);
    assert left == [0.375, 0.375];
    assert left[1..] == [0.375];
  }

  lemma {:induction false} WithoutIsErased(s: seq<Id>, i: nat, x: Id)
    requires i < |s| && s[i] == x && x !in s[..i]
    ensures x in s && i == IndexOf(s, x) && Without(s, x) == Erased(s, i)
  {
    if i > 0 {
      assert s[0] == s[..i][0];
      assert s[1..][..i - 1] == s[..i][1..];
      WithoutIsErased(s[1..], i - 1, x);
      assert Erased(s, i) == [s[0]] + Erased(s[1..], i - 1);
    }
  }

  lemma {:induction false} ReplacedIsUpdate(s: seq<Id>, i: nat, x: Id, y: Id)
    requires i < |s| && s[i] == x && x !in s[..i]
    ensures Replaced(s, x, y) == s[i := y]
  {
    if i > 0 {
      assert s[0] == s[..i][0];
      assert s[1..][..i - 1] == s[..i][1..];
      ReplacedIsUpdate(s[1..], i - 1, x, y);
    }
  }

  lemma {:induction false} ScaleInTwoSteps(x: real, oldSize: real, newSize: real)
    requires newSize > 0.0
    ensures x * oldSize / newSize == x * (oldSize / newSize)
  {
  }

  /** Every old share is halved, and the last one is a half. */
  predicate HalvedAndHalf(sizes: seq<real>, sizes': seq<real>) {
    |sizes'| == |sizes| + 1 && sizes'[|sizes|] == 0.5 && forall i :: 0 <= i < |sizes| ==> sizes'[i] == sizes[i] / 2.0
  }

  /** Every share but the `k`-th, times the old over the new number of shares. */
  predicate RescaledWithout(sizes: seq<real>, k: nat, sizes': seq<real>) {
    |sizes'| == |sizes| - 1 > 0 &&
    forall i :: 0 <= i < |sizes'| ==> sizes'[i] == sizes[if i < k then i else i + 1] * |sizes| as real / |sizes'| as real
  }

  /** What a split does to the shares: a new split is cut in half, a continued one makes room. */
  ghost predicate SharesAfterSplit(splits: Splits, splits': Splits, p: Id, vertical: bool, splitId: Id) {
    && (if p in splits && splits[p].vertical == vertical
        then p in splits' && HalvedAndHalf(splits[p].sizes, splits'[p].sizes)
        else splitId in splits' && splits'[splitId].sizes == [0.5, 0.5])
    && forall s :: s in splits && (s != p || splits[s].vertical != vertical) ==>
                     s in splits' && splits'[s].sizes == splits[s].sizes
  }

  ghost predicate SharesAfterClose(splits: Splits, splits': Splits, p: Id, pane: Id) {
    && (p in splits && pane in splits[p].children && |splits[p].sizes| == |splits[p].children| > 2 ==>
          p in splits' && RescaledWithout(splits[p].sizes, IndexOf(splits[p].children, pane), splits'[p].sizes))
    && forall s :: s in splits && s != p ==> s in splits' && splits'[s].sizes == splits[s].sizes
  }

  lemma {:induction false} OneMoreIs(sizes: seq<real>)
    ensures HalvedAndHalf(sizes, SharesWithOneMore(sizes))
  {
  }

  lemma {:induction false} WithoutIs(sizes: seq<real>, k: nat)
    requires k < |sizes| && |sizes| > 1
    ensures RescaledWithout(sizes, k, SharesWithout(sizes, k))
  {
    var left := SharesWithout(sizes, k);
    forall i | 0 <= i < |left|
      ensures left[i] == sizes[if i < k then i else i + 1] * |sizes| as real / |left| as real
    {
      assert left[i] == Erased(sizes, k)[i] * Growth(|sizes| - 1);
      ScaleInTwoSteps(Erased(sizes, k)[i], |sizes| as real, |left| as real);
    }
  }

  /** The other of the two children of the pane's split is a split. */
  predicate SiblingIsLoneSplit(panes: Panes, splits: Splits, pane: Id)
    requires pane in panes
  {
    var p := panes[pane].parentId;
    p in splits && pane in splits[p].children && |splits[p].children| == 2 &&
    Without(splits[p].children, pane)[0] in splits
  }

  lemma {:induction false} OrdersAre(tabs: Tabs, panes: Panes, splits: Splits, f: Trees)
    requires HtmInv(tabs, panes, splits, f)
    ensures OrdersNumberTabs(tabs)
  {
  }

  lemma {:induction false} KeysOf(tabs: Tabs, panes: Panes, splits: Splits, f: Trees)
    requires HtmInv(tabs, panes, splits, f)
    ensures "" !in splits && tabs.Keys !! splits.Keys && panes.Keys !! splits.Keys
  {
  }

  /** On every well-formed state closing a live pane is fatal if and only if its split has
      exactly two children and the other one is a split. */
  lemma {:induction false} FaultsWhenSiblingIsLoneSplit(tabs: Tabs, panes: Panes, splits: Splits,
                                                        f: Trees, pane: Id)
    requires HtmInv(tabs, panes, splits, f) && pane in panes
    ensures ForestFaults(f, pane) <==> SiblingIsLoneSplit(panes, splits, pane)
  {
    hide HtmInv, CloseFaults, Without;
    FaultCondition(tabs, panes, splits, f, pane, panes[pane].parentId);
  }

  lemma {:induction false} NoSplitNoFault(panes: Panes, splits: Splits, pane: Id)
    requires pane in panes && panes[pane].parentId !in splits
    ensures !SiblingIsLoneSplit(panes, splits, pane)
    ensures SharesAfterClose(splits, splits, panes[pane].parentId, pane)
  {
  }

  lemma {:induction false} ShrunkByErasing(panes: Panes, splits: Splits, panes': Panes, splits': Splits,
                                           p: Id, pane: Id)
    requires p in splits && pane in splits[p].children && |splits[p].sizes| == |splits[p].children| > 2
    requires panes' == panes - {pane}
    requires splits' == splits[p := splits[p].(children := Without(splits[p].children, pane),
                                               sizes := SharesWithout(splits[p].sizes, IndexOf(splits[p].children, pane)))]
    ensures Shrunk(panes, splits, panes', splits', p, pane)
    ensures SharesAfterClose(splits, splits', p, pane)
  {
    hide IndexOf, SharesWithout, RescaledWithout;
    WithoutIsShorter(splits[p].children, pane);
    WithoutIs(splits[p].sizes, IndexOf(splits[p].children, pane));
  }

  lemma {:induction false} ShiftKeepsChildren(tabs: Tabs, order: int)
    ensures Shifted(tabs, order).Keys == tabs.Keys
    ensures forall t :: t in tabs ==> Shifted(tabs, order)[t].child == tabs[t].child
  {
  }

  lemma {:induction false} WithoutIsShorter(s: seq<Id>, x: Id)
    requires x in s
    ensures |Without(s, x)| == |s| - 1
  {
  }

  function ChildReplaced(splits: Splits, p: Id, x: Id, y: Id): Splits
    requires p in splits
  {
    splits[p := splits[p].(children := Replaced(splits[p].children, x, y))]
  }

  // The new pane enters the map before it has a parent.

  lemma {:induction false} AppendedAfterInsert(panes: Panes, splits: Splits, panes': Panes, splits': Splits,
                                               p: Id, pane: Id, splitId: Id)
    requires Appended(panes[pane := Pane(pane, "")], splits, panes', splits', p, pane)
    requires splits'[p].sizes == SharesWithOneMore(splits[p].sizes)
    ensures Appended(panes, splits, panes', splits', p, pane)
    ensures SharesAfterSplit(splits, splits', p, splits[p].vertical, splitId)
  {
    hide SharesWithOneMore, HalvedAndHalf;
    OneMoreIs(splits[p].sizes);
  }

  lemma {:induction false} NestedAfterInsert(panes: Panes, splits: Splits, panes': Panes, splits': Splits,
                                             p: Id, source: Id, pane: Id, vertical: bool, splitId: Id)
    requires splitId !in splits && source != pane && (p in splits ==> splits[p].vertical != vertical)
    requires panes' == panes[pane := Pane(pane, "")][pane := Pane(pane, splitId)][source := Pane(source, splitId)]
    requires var added := splits[splitId := Split(splitId, p, vertical, [source, pane], [0.5, 0.5])];
             splits' == if p in splits
                        then added[p := splits[p].(children := Replaced(splits[p].children, source, splitId))]
                        else added
    ensures Nested(panes, splits, panes', splits', p, source, pane, vertical, splitId)
    ensures SharesAfterSplit(splits, splits', p, vertical, splitId)
  {
    hide Replaced;
  }

  lemma {:induction false} CollapsedByErasing(panes: Panes, splits: Splits, panes': Panes, splits': Splits,
                                              p: Id, pane: Id, only: Id, sizes: seq<real>)
    requires p in splits && Without(splits[p].children, pane) == [only] && only in panes && only != pane
    requires panes[only].id == only
    requires var above := splits[p].parentId;
             && above != p
             && panes' == (panes - {pane})[only := panes[only].(parentId := above)]
             && var erased := splits[p := splits[p].(children := [only], sizes := sizes)];
                splits' == (if above in splits
                            then erased[above := erased[above].(children := Replaced(erased[above].children, p, only))]
                            else erased) - {p}
    ensures Collapsed(panes, splits, panes', splits', p, pane, only)
  {
    hide Replaced, Without;
  }

  lemma {:induction false} PaneOrSplitIsListed(tabs: Tabs, panes: Panes, splits: Splits, f: Trees,
                                               id: Id)
    requires HtmInv(tabs, panes, splits, f)
    ensures id in panes ==> panes[id].id == id && id !in splits
  {
    hide HtmInv;
    if id in panes {
      PaneIsListed(tabs, panes, splits, f, id);
      KeysOf(tabs, panes, splits, f);
    }
  }

  /** Whatever the forest, no split has one pane twice. */
  lemma {:induction false} TwiceIsNoForest(tabs: Tabs, panes: Panes, splits: Splits, pane: Id, p: Id)
    requires pane in panes && panes[pane].parentId == p && p in splits && splits[p].children == [pane, pane]
    ensures forall f :: !HtmInv(tabs, panes, splits, f)
  {
    hide HtmInv, CloseFaults;
    forall f
      ensures !HtmInv(tabs, panes, splits, f)
    {
      if HtmInv(tabs, panes, splits, f) {
        FaultCondition(tabs, panes, splits, f, pane, p);
        assert false;
      }
    }
  }

  class MultiplexerState {
    var tabs: Tabs
    var panes: Panes
    var splits: Splits
    var closed: set<Id>
    ghost var forest: Trees

    ghost predicate Valid()
      reads this
    {
      HtmInv(tabs, panes, splits, forest)
    }

    /** One tab holding one pane. */
    constructor (tabId: Id, paneId: Id)
      ensures Valid() && closed == {}
      ensures forest == map[tabId := Leaf(paneId)]
    {
      tabs := map[tabId := Tab(tabId, paneId, 0)];
      panes := map[paneId := Pane(paneId, tabId)];
      splits := map[];
      closed := {};
      forest := map[tabId := Leaf(paneId)];
      new;
      assert HasOrder(tabs, 0) by {
        assert tabs[tabId].order == 0;
      }
      assert |tabs| == 1;
      assert paneId in Leaves(forest[tabId]);
    }

    method FatalIfFound(id: Id) returns (fatal: bool)
      ensures fatal <==> !Unused(id, tabs, panes, splits)
    {
      fatal := id in panes || id in splits || id in tabs;
    }

    /** Opens a tab of one pane, numbered after all the others. */
    method NewTab(tabId: Id, paneId: Id) returns (outcome: Outcome)
      requires Valid()
      modifies this
      ensures outcome == if Unused(tabId, old(tabs), old(panes), old(splits)) &&
                            Unused(paneId, old(tabs), old(panes), old(splits)) then Done else Fatal
      ensures outcome == Fatal ==> unchanged(this)
      ensures outcome == Done ==> Valid()
      ensures outcome == Done ==> forest == old(forest)[tabId := Leaf(paneId)]
      ensures outcome == Done ==> tabs == old(tabs)[tabId := Tab(tabId, paneId, |old(tabs)|)]
      ensures outcome == Done ==> panes == old(panes)[paneId := Pane(paneId, tabId)]
      ensures outcome == Done ==> splits == old(splits) && closed == old(closed)
    {
      hide HtmInv;
      var found := FatalIfFound(tabId);
      if found {
        return Fatal;
      }
      found := FatalIfFound(paneId);
      if found {
        return Fatal;
      }
      NewTabKeeps(tabs, panes, splits, forest, tabId, paneId);
      var tab := Tab(tabId, "", |tabs|);
      tabs := tabs[tabId := tab];
      tabs := tabs[tabId := tab.(child := paneId)];
      panes := panes[paneId := Pane(paneId, tabId)];
      forest := forest[tabId := Leaf(paneId)];
      assert tabs == old(tabs)[tabId := Tab(tabId, paneId, |old(tabs)|)];
      return Done;
    }

    method HalveSizes(p: Id)
      requires p in splits
      modifies this`splits
      ensures splits == old(splits)[p := old(splits)[p].(sizes := Scaled(old(splits)[p].sizes, 0.5))]
    {
      var split := splits[p];
      var sizes := split.sizes;
      var a := 0;
      while a < |sizes|
        invariant a <= |sizes| == |split.sizes|
        invariant forall i :: 0 <= i < |sizes| ==>
                    sizes[i] == if i < a then split.sizes[i] * 0.5 else split.sizes[i]
      {
        sizes := sizes[a := sizes[a] / 2.0];
        a := a + 1;
      }
      assert sizes == Scaled(split.sizes, 0.5);
      splits := splits[p := split.(sizes := sizes)];
    }

    method NormalizeSizes(p: Id)
      requires p in splits && |splits[p].sizes| > 0
      modifies this`splits
      ensures splits == old(splits)[p := old(splits)[p].(sizes := Scaled(old(splits)[p].sizes,
                (|old(splits)[p].sizes| + 1) as real / |old(splits)[p].sizes| as real))]
    {
      var split := splits[p];
      var sizes := split.sizes;
      var newSize := |sizes|;
      var oldSize := newSize + 1;
      ghost var factor := Growth(newSize);
      var a := 0;
      while a < |sizes|
        invariant a <= |sizes| == |split.sizes|
        invariant splits == old(splits)
        invariant forall i :: 0 <= i < |sizes| ==>
                    sizes[i] == if i < a then split.sizes[i] * factor else split.sizes[i]
      {
        ScaleInTwoSteps(sizes[a], oldSize as real, newSize as real);
        sizes := sizes[a := sizes[a] * oldSize as real / newSize as real];
        a := a + 1;
      }
      forall i | 0 <= i < |sizes|
        ensures sizes[i] == Scaled(split.sizes, factor)[i]
      {
      }
      assert sizes == Scaled(split.sizes, factor);
      splits := splits[p := split.(sizes := sizes)];
    }

    /** Puts `y` where `x` stands in the child list of the split `p`. */
    method ReplaceChild(p: Id, x: Id, y: Id) returns (fatal: bool)
      requires p in splits
      modifies this`splits
      ensures splits == ChildReplaced(old(splits), p, x, y)
      ensures fatal <==> old(splits)[p].children != [] && x !in old(splits)[p].children
    {
      var children := splits[p].children;
      var a := 0;
      while a < |children|
        invariant a <= |children| && x !in children[..a]
        invariant a == |children| ==> children == []
        invariant splits == old(splits)
      {
        if children[a] == x {
          ReplacedIsUpdate(children, a, x, y);
          splits := splits[p := splits[p].(children := children[a := y])];
          return false;
        }
        if a + 1 == |children| {
          ReplacedAbsent(children, x, y);
          return true;
        }
        a := a + 1;
      }
      return false;
    }

    /** Takes `x` and its share out of the split `p`. */
    method EraseChild(p: Id, x: Id) returns (fatal: bool)
      requires p in splits && |splits[p].sizes| == |splits[p].children|
      modifies this`splits
      ensures var split := old(splits)[p];
              if x in split.children then
                !fatal && splits == old(splits)[p := split.(children := Without(split.children, x),
                                                            sizes := Erased(split.sizes, IndexOf(split.children, x)))]
              else splits == old(splits) && (fatal <==> split.children != [])
    {
      var split := splits[p];
      var a := 0;
      while a < |split.children|
        invariant a <= |split.children| && x !in split.children[..a]
        invariant a == |split.children| ==> split.children == []
        invariant splits == old(splits)
      {
        if split.children[a] == x {
          WithoutIsErased(split.children, a, x);
          splits := splits[p := split.(children := Erased(split.children, a), sizes := Erased(split.sizes, a))];
          return false;
        }
        if a + 1 == |split.children| {
          return true;
        }
        a := a + 1;
      }
      return false;
    }

    /** `paneId` joins the split `p` as its last child. */
    method ContinueSplit(p: Id, paneId: Id)
      requires p in splits && paneId in panes && panes[paneId].id == paneId && |splits[p].sizes| == |splits[p].children|
      modifies this`splits, this`panes
      ensures Appended(old(panes), old(splits), panes, splits, p, paneId)
      ensures splits[p].sizes == SharesWithOneMore(old(splits)[p].sizes)
    {
      HalveSizes(p);
      splits := splits[p := splits[p].(sizes := splits[p].sizes + [0.5])];
      splits := splits[p := splits[p].(children := splits[p].children + [paneId])];
      panes := panes[paneId := panes[paneId].(parentId := p)];
    }

    /** `sourceId` and `paneId` move into a new split under `p`. */
    method OpenSplit(p: Id, sourceId: Id, paneId: Id, vertical: bool, splitId: Id)
      requires sourceId in panes && paneId in panes
      requires panes[sourceId].id == sourceId && panes[paneId].id == paneId
      modifies this`splits, this`panes
      ensures splits == old(splits)[splitId := Split(splitId, p, vertical, [sourceId, paneId], [0.5, 0.5])]
      ensures panes == old(panes)[paneId := Pane(paneId, splitId)][sourceId := Pane(sourceId, splitId)]
    {
      var split := Split(splitId, "", vertical, [], []);
      split := split.(children := split.children + [sourceId]);
      split := split.(children := split.children + [paneId]);
      split := split.(sizes := split.sizes + [0.5]);
      split := split.(sizes := split.sizes + [0.5]);
      split := split.(parentId := p);
      assert split == Split(splitId, p, vertical, [sourceId, paneId], [0.5, 0.5]);
      splits := splits[splitId := split];
      panes := panes[paneId := panes[paneId].(parentId := splitId)];
      panes := panes[sourceId := panes[sourceId].(parentId := splitId)];
    }

    /** Splits `sourceId` in two; `splitId` is the id drawn for a split, if one is opened. The new
        pane is known before the source is looked up, without a parent: as its own source it is
        put into the tab whose id is empty, if there is one. */
    method NewSplit(sourceId: Id, paneId: Id, vertical: bool, splitId: Id) returns (outcome: Outcome)
      requires Valid()
      requires paneId != splitId && splitId != ""
      requires Unused(splitId, tabs, panes, splits)
      modifies this
      ensures outcome == Done <==>
                && Unused(paneId, old(tabs), old(panes), old(splits))
                && (sourceId in old(panes) || (sourceId == paneId && "" in old(tabs)))
      ensures outcome != AlreadyClosed && closed == old(closed)
      ensures outcome == Done ==>
                tabs.Keys == old(tabs).Keys && forall t :: t in tabs ==> tabs[t].order == old(tabs)[t].order
      ensures outcome == Done && sourceId != paneId ==> Valid()
      ensures outcome == Done && sourceId != paneId ==>
                forest == SplitForest(old(forest), sourceId, paneId, vertical, splitId)
      ensures outcome == Done && sourceId != paneId ==>
                SharesAfterSplit(old(splits), splits, old(panes)[sourceId].parentId, vertical, splitId)
      ensures outcome == Done && sourceId == paneId ==>
                && tabs == old(tabs)["" := old(tabs)[""].(child := splitId)]
                && panes == old(panes)[paneId := Pane(paneId, splitId)]
                && splits == old(splits)[splitId := Split(splitId, "", vertical, [paneId, paneId], [0.5, 0.5])]
                && forall f :: !HtmInv(tabs, panes, splits, f)
    {
      hide HtmInv, Scaled, SharesWithOneMore, Replaced, SplitForest, SharesAfterSplit, Appended, Nested;
      KeysOf(tabs, panes, splits, forest);
      var found := FatalIfFound(paneId);
      if found {
        return Fatal;
      }
      panes := panes[paneId := Pane(paneId, "")];
      if sourceId !in panes {
        return Fatal;
      }
      var p := panes[sourceId].parentId;
      if sourceId != paneId {
        PaneIsListed(tabs, old(panes), splits, forest, sourceId);
      }
      if p in splits && splits[p].vertical == vertical {
        SplitIsWellFormed(tabs, old(panes), splits, forest, p);
        ContinueSplit(p, paneId);
        AppendedAfterInsert(old(panes), old(splits), panes, splits, p, paneId, splitId);
        AppendKeeps(tabs, old(panes), old(splits), forest, panes, splits, sourceId, paneId, vertical, splitId, p);
        forest := SplitForest(forest, sourceId, paneId, vertical, splitId);
        return Done;
      }
      if p in splits {
        OpenSplit(p, sourceId, paneId, vertical, splitId);
        var fatal := ReplaceChild(p, sourceId, splitId);
        if fatal {
          return Fatal;
        }
      } else {
        if p !in tabs {
          return Fatal;
        }
        OpenSplit(p, sourceId, paneId, vertical, splitId);
        tabs := tabs[p := tabs[p].(child := splitId)];
        if sourceId == paneId {
          TwiceIsNoForest(tabs, panes, splits, paneId, splitId);
          return Done;
        }
      }
      NestedAfterInsert(old(panes), old(splits), panes, splits, p, sourceId, paneId, vertical, splitId);
      NestKeeps(old(tabs), old(panes), old(splits), forest, tabs, panes, splits,
                sourceId, paneId, vertical, splitId, p);
      forest := SplitForest(forest, sourceId, paneId, vertical, splitId);
      return Done;
    }

    method ShiftOrders(order: int)
      modifies this`tabs
      ensures tabs == Shifted(old(tabs), order)
    {
      var remaining := tabs.Keys;
      while remaining != {}
        invariant remaining <= tabs.Keys == old(tabs).Keys
        invariant forall t :: t in tabs ==> tabs[t] == if t in remaining then old(tabs)[t] else Shift(old(tabs)[t], order)
        decreases |remaining|
      {
        var t :| t in remaining;
        if tabs[t].order > order {
          tabs := tabs[t := tabs[t].(order := tabs[t].order - 1)];
        }
        remaining := remaining - {t};
      }
    }

    /** Erases a tab whose child is `paneId`; fatal when there is none. */
    method EraseTabOf(paneId: Id) returns (fatal: bool)
      modifies this`tabs
      ensures fatal ==> tabs == old(tabs) && forall t :: t in tabs ==> tabs[t].child != paneId
      ensures !fatal ==> exists t :: t in old(tabs) && old(tabs)[t].child == paneId && tabs == old(tabs) - {t}
    {
      var remaining := tabs.Keys;
      while remaining != {}
        invariant remaining <= tabs.Keys && tabs == old(tabs)
        invariant forall t :: t in tabs && t !in remaining ==> tabs[t].child != paneId
        decreases |remaining|
      {
        var t :| t in remaining;
        if tabs[t].child == paneId {
          tabs := tabs - {t};
          return false;
        }
        remaining := remaining - {t};
      }
      return true;
    }

    /** The pane left alone in the split `p` takes its place. */
    method Collapse(p: Id) returns (fatal: bool)
      requires p in splits && |splits[p].children| == 1 && splits[p].parentId != p
      requires var above := splits[p].parentId;
               above in tabs || (above in splits && p in splits[above].children)
      modifies this`tabs, this`panes, this`splits
      ensures var only, above := old(splits)[p].children[0], old(splits)[p].parentId;
              && (fatal <==> only !in old(panes))
              && (!fatal ==>
                    && panes == old(panes)[only := old(panes)[only].(parentId := above)]
                    && if above in old(tabs) then
                         && tabs == old(tabs)[above := old(tabs)[above].(child := only)]
                         && splits == old(splits) - {p}
                       else
                         && tabs == old(tabs)
                         && splits == ChildReplaced(old(splits), above, p, only) - {p})
    {
      hide Replaced;
      var only := splits[p].children[0];
      if only !in panes {
        return true;
      }
      var above := splits[p].parentId;
      panes := panes[only := panes[only].(parentId := above)];
      if above in tabs {
        tabs := tabs[above := tabs[above].(child := only)];
      } else {
        if above !in splits {
          return true;
        }
        fatal := ReplaceChild(above, p, only);
        if fatal {
          return true;
        }
      }
      splits := splits - {p};
      return false;
    }

    /** The pane was alone in its tab. */
    method CloseTab(p: Id, paneId: Id) returns (fatal: bool)
      requires p in tabs && (forall t :: t in tabs && tabs[t].child == paneId <==> t == p)
      modifies this`tabs
      ensures !fatal && tabs == Shifted(old(tabs), old(tabs)[p].order) - {p}
    {
      ShiftKeepsChildren(tabs, tabs[p].order);
      ShiftOrders(tabs[p].order);
      fatal := EraseTabOf(paneId);
    }

    /** The pane sits in the split `p`. */
    method CloseChild(p: Id, paneId: Id) returns (fatal: bool)
      requires HtmInv(tabs, panes[paneId := Pane(paneId, p)], splits, forest)
      requires paneId !in panes && p in splits
      modifies this`tabs, this`panes, this`splits
      ensures fatal <==> SiblingIsLoneSplit(old(panes)[paneId := Pane(paneId, p)], old(splits), paneId)
      ensures !fatal ==> HtmInv(tabs, panes, splits, CloseForest(forest, paneId))
      ensures !fatal ==> SharesAfterClose(old(splits), splits, p, paneId)
      ensures !fatal ==> SameTabOrders(old(tabs), tabs)
    {
      hide HtmInv, Without, Replaced, IndexOf, Erased, Scaled, CloseForest, Shrunk, Collapsed;
      ghost var before := panes[paneId := Pane(paneId, p)];
      assert panes == before - {paneId};
      KeysOf(tabs, before, splits, forest);
      FaultCondition(tabs, before, splits, forest, paneId, p);
      PaneIsListed(tabs, before, splits, forest, paneId);
      SplitIsWellFormed(tabs, before, splits, forest, p);
      WithoutIsShorter(splits[p].children, paneId);
      fatal := EraseChild(p, paneId);
      if fatal {
        return true;
      }
      if |splits[p].children| > 1 {
        ghost var sizes := splits[p].sizes;
        NormalizeSizes(p);
        ShrunkByErasing(before, old(splits), panes, splits, p, paneId);
        ShrinkKeeps(tabs, before, old(splits), forest, panes, splits, paneId, p);
      } else {
        ghost var only, sizes := splits[p].children[0], splits[p].sizes;
        PaneOrSplitIsListed(tabs, before, old(splits), forest, only);
        SplitIsListed(tabs, before, old(splits), forest, p);
        fatal := Collapse(p);
        if fatal {
          return true;
        }
        CollapsedByErasing(before, old(splits), panes, splits, p, paneId, only, sizes);
        CollapseKeeps(old(tabs), before, old(splits), forest, tabs, panes, splits, paneId, p, only);
      }
    }

    method ClosePane(paneId: Id) returns (outcome: Outcome)
      requires Valid()
      modifies this
      ensures outcome == AlreadyClosed <==> paneId in old(closed)
      ensures outcome == AlreadyClosed ==> unchanged(this)
      ensures outcome == Fatal <==>
              paneId !in old(closed) && (paneId !in old(panes) || ForestFaults(old(forest), paneId))
      ensures outcome == Done ==> Valid() && closed == old(closed) + {paneId}
      ensures outcome == Done ==> forest == CloseForest(old(forest), paneId)
      ensures outcome == Done ==> SharesAfterClose(old(splits), splits, old(panes)[paneId].parentId, paneId)
      ensures outcome == Done ==>
                && tabs.Keys == (if old(panes)[paneId].parentId in old(tabs) then old(tabs).Keys - {old(panes)[paneId].parentId}
                                 else old(tabs).Keys)
                && forall t1, t2 :: t1 in tabs && t2 in tabs ==>
                     (tabs[t1].order < tabs[t2].order <==> old(tabs)[t1].order < old(tabs)[t2].order)
      ensures outcome == Done && tabs.Keys == old(tabs).Keys ==>
                forall t :: t in tabs ==> tabs[t].order == old(tabs)[t].order
    {
      hide HtmInv, ForestFaults, Without, SharesAfterClose, Shifted, CloseForest, SiblingIsLoneSplit;
      KeysOf(tabs, panes, splits, forest);
      if paneId in closed {
        return AlreadyClosed;
      }
      if paneId !in panes {
        return Fatal;
      }
      var p := panes[paneId].parentId;
      FaultsWhenSiblingIsLoneSplit(tabs, panes, splits, forest, paneId);
      PaneIsListed(tabs, panes, splits, forest, paneId);
      panes := panes - {paneId};
      closed := closed + {paneId};
      assert panes[paneId := Pane(paneId, p)] == old(panes);
      var fatal;
      if p in tabs {
        CloseTabKeeps(tabs, old(panes), splits, forest, paneId, p);
        OrdersAre(tabs, old(panes), splits, forest);
        ShiftKeepsOrder(tabs, p);
        ShiftKeepsChildren(tabs, tabs[p].order);
        NoSplitNoFault(old(panes), splits, paneId);
        fatal := CloseTab(p, paneId);
      } else if p in splits {
        fatal := CloseChild(p, paneId);
      } else {
        return Fatal;
      }
      if fatal {
        return Fatal;
      }
      assert p !in old(tabs) ==> SameTabOrders(old(tabs), tabs);
      forest := CloseForest(forest, paneId);
      return Done;
    }
  }
}
