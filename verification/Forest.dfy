/** What the tabs, splits and panes of HTM stand for: one ordered tree per tab
    (src/htm/MultiplexerState.cpp). */
module Forest {

  type Id = string

  /** A pane, or a split with its children in order. */
  datatype Tree = Leaf(id: Id) | Node(id: Id, vertical: bool, kids: seq<Tree>)

  function Roots(ts: seq<Tree>): (ids: seq<Id>)
    ensures |ids| == |ts|
  {
    seq(|ts|, i requires 0 <= i < |ts| => ts[i].id)
  }

  function Leaves(t: Tree): seq<Id>
    decreases t, 1
  {
    match t
    case Leaf(id) => [id]
    case Node(_, _, kids) => AllLeaves(kids)
  }

  function AllLeaves(ts: seq<Tree>): seq<Id>
    decreases ts, 0
  {
    if ts == [] then [] else Leaves(ts[0]) + AllLeaves(ts[1..])
  }

  /** Every id in a tree, panes and splits alike. */
  function Ids(t: Tree): set<Id>
    decreases t, 1
  {
    match t
    case Leaf(id) => {id}
    case Node(id, _, kids) => {id} + AllIds(kids)
  }

  function AllIds(ts: seq<Tree>): set<Id>
    decreases ts, 0
  {
    if ts == [] then {} else Ids(ts[0]) + AllIds(ts[1..])
  }

  predicate Distinct(t: Tree)
    decreases t, 1
  {
    match t
    case Leaf(_) => true
    case Node(id, _, kids) => id !in AllIds(kids) && AllDistinct(kids)
  }

  predicate AllDistinct(ts: seq<Tree>)
    decreases ts, 0
  {
    ts == [] || (Distinct(ts[0]) && AllDistinct(ts[1..]) && Ids(ts[0]) !! AllIds(ts[1..]))
  }

  /** Every split has at least two children, and no split has a child split of its own
      orientation. */
  predicate Shaped(t: Tree)
    decreases t, 1
  {
    match t
    case Leaf(_) => true
    case Node(_, vertical, kids) => |kids| >= 2 && AllShaped(kids, vertical)
  }

  predicate AllShaped(ts: seq<Tree>, vertical: bool)
    decreases ts, 0
  {
    ts == [] || (Shaped(ts[0]) && (ts[0].Node? ==> ts[0].vertical != vertical) && AllShaped(ts[1..], vertical))
  }

  // ----- splitting a pane -----

  /** `source` becomes a split of itself and `pane`, unless it already sits in a split of
      that orientation: then `pane` goes to the end of that split. */
  function SplitLeaf(t: Tree, source: Id, pane: Id, vertical: bool, splitId: Id): Tree
    decreases t, 1
  {
    match t
    case Leaf(id) => if id == source then Node(splitId, vertical, [Leaf(source), Leaf(pane)]) else t
    case Node(id, v, kids) =>
      if v == vertical && Leaf(source) in kids then Node(id, v, kids + [Leaf(pane)])
      else Node(id, v, SplitAll(kids, source, pane, vertical, splitId))
  }

  function SplitAll(ts: seq<Tree>, source: Id, pane: Id, vertical: bool, splitId: Id): (r: seq<Tree>)
    ensures |r| == |ts|
    decreases ts, 0
  {
    if ts == [] then []
    else [SplitLeaf(ts[0], source, pane, vertical, splitId)] + SplitAll(ts[1..], source, pane, vertical, splitId)
  }

  // ----- closing a pane -----

  function WithoutLeaf(ts: seq<Tree>, pane: Id): (r: seq<Tree>)
    ensures |r| == if Leaf(pane) in ts then |ts| - 1 else |ts|
  {
    if ts == [] then [] else if ts[0] == Leaf(pane) then ts[1..] else [ts[0]] + WithoutLeaf(ts[1..], pane)
  }

  /** `pane` is taken out of its split; a split left with one child gives way to it. */
  function CloseLeaf(t: Tree, pane: Id): Tree
    decreases t, 1
  {
    match t
    case Leaf(_) => t
    case Node(id, v, kids) =>
      if Leaf(pane) in kids then
        var rest := WithoutLeaf(kids, pane);
        if |rest| == 1 then rest[0] else Node(id, v, rest)
      else Node(id, v, CloseAll(kids, pane))
  }

  function CloseAll(ts: seq<Tree>, pane: Id): (r: seq<Tree>)
    ensures |r| == |ts|
    decreases ts, 0
  {
    if ts == [] then [] else [CloseLeaf(ts[0], pane)] + CloseAll(ts[1..], pane)
  }

  /** Closing is fatal when it would leave a split alone in a split. */
  predicate CloseFaults(t: Tree, pane: Id)
    decreases t, 1
  {
    match t
    case Leaf(_) => false
    case Node(_, _, kids) =>
      if Leaf(pane) in kids then |kids| == 2 && WithoutLeaf(kids, pane)[0].Node?
      else AnyCloseFaults(kids, pane)
  }

  predicate AnyCloseFaults(ts: seq<Tree>, pane: Id)
    decreases ts, 0
  {
    ts != [] && (CloseFaults(ts[0], pane) || AnyCloseFaults(ts[1..], pane))
  }

  // ----- leaves and ids -----

  lemma {:induction false} LeavesAreIds(t: Tree)
    ensures forall id :: id in Leaves(t) ==> id in Ids(t)
    ensures Leaves(t) == [] ==> t.Node?
    decreases t, 1
  {
    if t.Node? {
      AllLeavesAreIds(t.kids);
    }
  }

  lemma {:induction false} AllLeavesAreIds(ts: seq<Tree>)
    ensures forall id :: id in AllLeaves(ts) ==> id in AllIds(ts)
    decreases ts, 0
  {
    if ts != [] {
      LeavesAreIds(ts[0]);
      AllLeavesAreIds(ts[1..]);
    }
  }

  lemma {:induction false} KidIds(ts: seq<Tree>, i: nat)
    requires i < |ts|
    ensures Ids(ts[i]) <= AllIds(ts)
    ensures ts[i].id in AllIds(ts)
    ensures AllDistinct(ts) ==> Distinct(ts[i])
  {
    if i > 0 {
      KidIds(ts[1..], i - 1);
    }
  }

  lemma {:induction false} LeafKid(ts: seq<Tree>, pane: Id)
    requires Leaf(pane) in ts
    ensures pane in AllLeaves(ts) && pane in AllIds(ts)
  {
    if ts[0] != Leaf(pane) {
      LeafKid(ts[1..], pane);
    }
  }

  lemma {:induction false} AllIdsConcat(a: seq<Tree>, b: seq<Tree>)
    ensures AllIds(a + b) == AllIds(a) + AllIds(b)
    ensures AllLeaves(a + b) == AllLeaves(a) + AllLeaves(b)
    ensures AllDistinct(a + b) <==> AllDistinct(a) && AllDistinct(b) && AllIds(a) !! AllIds(b)
  {
    if a == [] {
      assert a + b == b;
    } else {
      assert (a + b)[1..] == a[1..] + b;
      AllIdsConcat(a[1..], b);
    }
  }

  // ----- operations away from their target -----

  lemma {:induction false} SplitElsewhere(t: Tree, source: Id, pane: Id, vertical: bool, splitId: Id)
    requires source !in Leaves(t)
    ensures SplitLeaf(t, source, pane, vertical, splitId) == t
    decreases t, 1
  {
    if t.Node? {
      if Leaf(source) in t.kids {
        LeafKid(t.kids, source);
      }
      SplitAllElsewhere(t.kids, source, pane, vertical, splitId);
    }
  }

  lemma {:induction false} SplitAllElsewhere(ts: seq<Tree>, source: Id, pane: Id, vertical: bool, splitId: Id)
    requires source !in AllLeaves(ts)
    ensures SplitAll(ts, source, pane, vertical, splitId) == ts
    decreases ts, 0
  {
    if ts != [] {
      SplitElsewhere(ts[0], source, pane, vertical, splitId);
      SplitAllElsewhere(ts[1..], source, pane, vertical, splitId);
    }
  }

  lemma {:induction false} CloseElsewhere(t: Tree, pane: Id)
    requires pane !in Leaves(t)
    ensures CloseLeaf(t, pane) == t && !CloseFaults(t, pane)
    decreases t, 1
  {
    if t.Node? {
      if Leaf(pane) in t.kids {
        LeafKid(t.kids, pane);
      }
      CloseAllElsewhere(t.kids, pane);
    }
  }

  lemma {:induction false} CloseAllElsewhere(ts: seq<Tree>, pane: Id)
    requires pane !in AllLeaves(ts)
    ensures CloseAll(ts, pane) == ts && !AnyCloseFaults(ts, pane)
    decreases ts, 0
  {
    if ts != [] {
      CloseElsewhere(ts[0], pane);
      CloseAllElsewhere(ts[1..], pane);
    }
  }
}
