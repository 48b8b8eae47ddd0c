/** What reaches the forwarded sockets when writes stop short: the result of `writeAllOrReturn` is
    ignored (src/terminal/forwarding/ForwardSourceHandler.cpp, ForwardDestinationHandler.cpp). */
module ForwardingWrites {
  import opened Wire
  import opened Sequences
  import opened Forwarding
  import opened ForwardingProof
  import opened ForwardSockets
  import opened ForwardingReuse
  import Theorems = ForwardingTheorems

  /** One write: the bytes handed to a socket, and how many of them it took. */
  datatype Delivery = Delivery(chunk: Bytes, written: nat)

  /** The two ends, and what was written to the sockets of each id since it was last drawn. */
  datatype Written = Written(world: World, atDst: map<int, seq<Delivery>>, atSrc: map<int, seq<Delivery>>)

  /** A step, and how the calls of `write` turn out if it writes to a socket. */
  datatype Act = Act(step: Step, outcomes: seq<Write>)

  function Given(m: map<int, seq<Delivery>>, id: int): seq<Delivery> {
    if id in m then m[id] else []
  }

  function OneMore(m: map<int, seq<Delivery>>, id: int, chunk: Bytes, outcomes: seq<Write>): map<int, seq<Delivery>> {
    m[id := Given(m, id) + [Delivery(chunk, Accepted(outcomes, |chunk|))]]
  }

  /** The step hands a chunk to a destination socket, or to a source socket. */
  predicate WritesAtDestination(w: World, step: Step)
    requires Can(w, step)
  {
    step.HandlesAtDestination? && w.toDst[0].Data? && w.toDst[0].event.Chunk? && w.toDst[0].id in w.dst
  }

  predicate WritesAtSource(w: World, step: Step)
    requires Can(w, step)
  {
    step.HandlesAtSource? && w.toSrc[0].Data? && w.toSrc[0].event.Chunk?
    && Live(w.src, w.toSrc[0].id) && Partner(w, w.toSrc[0].id, FdOf(w.src, w.toSrc[0].id))
  }

  function NextWritten(x: Written, act: Act): Written
    requires Can(x.world, act.step)
  {
    var w, w' := x.world, Next(x.world, act.step);
    if WritesAtDestination(w, act.step) then
      Written(w', OneMore(x.atDst, w.toDst[0].id, w.toDst[0].event.bytes, act.outcomes), x.atSrc)
    else if WritesAtSource(w, act.step) then
      Written(w', x.atDst, OneMore(x.atSrc, w.toSrc[0].id, w.toSrc[0].event.bytes, act.outcomes))
    else if Draws(w, act.step).Some? then
      Written(w', x.atDst - {Draws(w, act.step).value}, x.atSrc - {Draws(w, act.step).value})
    else x.(world := w')
  }

  /** A run whose every draw is of a free socket id, with its writes. */
  ghost predicate WrittenRun(acts: seq<Act>, x: Written, x': Written)
    decreases |acts|
  {
    if acts == [] then x == x'
    else
      && Can(x.world, acts[0].step) && Careful(x.world, acts[0].step)
      && WrittenRun(acts[1..], NextWritten(x, acts[0]), x')
  }

  function Begin(handlers: nat): Written {
    Written(Start(handlers), map[], map[])
  }

  // ----- what reaches a socket -----

  function Chunks(deliveries: seq<Delivery>): (chunks: seq<Bytes>)
    ensures |chunks| == |deliveries|
  {
    seq(|deliveries|, i requires 0 <= i < |deliveries| => deliveries[i].chunk)
  }

  function Counts(deliveries: seq<Delivery>): (counts: seq<nat>)
    ensures |counts| == |deliveries|
  {
    seq(|deliveries|, i requires 0 <= i < |deliveries| => deliveries[i].written)
  }

  /** The bytes that reach the socket. */
  function Arrived(deliveries: seq<Delivery>): Bytes
    requires Fit(Chunks(deliveries), Counts(deliveries))
  {
    Reached(Chunks(deliveries), Counts(deliveries))
  }

  /** The deliveries are of these lengths, and these counts were written. */
  predicate OfShape(deliveries: seq<Delivery>, lengths: seq<nat>, written: seq<nat>) {
    OfLengths(Chunks(deliveries), lengths) && Counts(deliveries) == written
  }

  /** The deliveries are the bytes handed over, and no write takes more than it was given. */
  ghost predicate Matches(deliveries: seq<Delivery>, given: Bytes) {
    Fit(Chunks(deliveries), Counts(deliveries)) && Flat(Chunks(deliveries)) == given
  }

  ghost predicate WritesInv(x: Written) {
    forall id :: Matches(Given(x.atDst, id), At(x.world.givenToDst, id)) &&
                 Matches(Given(x.atSrc, id), At(x.world.givenToSrc, id))
  }

  lemma {:induction false} MatchesNothing()
    ensures Matches([], [])
  {
  }

  lemma {:induction false} FlatAdded(chunks: seq<Bytes>, chunk: Bytes)
    ensures Flat(chunks + [chunk]) == Flat(chunks) + chunk
  {
    if chunks == [] {
      assert [chunk][1..] == [] && [] + [chunk] == [chunk];
      assert Flat([chunk]) == chunk + [] == [] + chunk;
    } else {
      assert (chunks + [chunk])[1..] == chunks[1..] + [chunk];
      FlatAdded(chunks[1..], chunk);
      assert chunks[0] + (Flat(chunks[1..]) + chunk) == (chunks[0] + Flat(chunks[1..])) + chunk;
    }
  }

  lemma {:induction false} MatchesOneMore(deliveries: seq<Delivery>, given: Bytes, d: Delivery)
    requires Matches(deliveries, given) && d.written <= |d.chunk|
    ensures Matches(deliveries + [d], given + d.chunk)
  {
    var more := deliveries + [d];
    FlatAdded(Chunks(deliveries), d.chunk);
    assert Chunks(more) == Chunks(deliveries) + [d.chunk];
    forall i | 0 <= i < |more|
      ensures Counts(more)[i] <= |Chunks(more)[i]|
    {
      assert i < |deliveries| ==> Counts(deliveries)[i] <= |Chunks(deliveries)[i]|;
    }
  }

  // ----- every run -----

  predicate SameGiven(w: World, w': World) {
    w'.givenToDst == w.givenToDst && w'.givenToSrc == w.givenToSrc
  }

  lemma {:induction false} GatheringHandsNothing(w: World, step: Step)
    requires Can(w, step) && !step.HandlesAtDestination? && !step.HandlesAtSource?
    ensures SameGiven(w, Next(w, step))
  {
    hide HandleAtDestination, HandleAtSource, Longer, Accept, SourceEnded, Partner;
    match step
    case Accepts(_, _) =>
    case ReadsSource(_, _, event) =>
    case SendsSource =>
    case ReadsDestination(_, event) =>
    case SendsDestination =>
  }

  lemma {:induction false} DestinationIsHanded(w: World, step: Step)
    requires Can(w, step) && step.HandlesAtDestination?
    ensures w.toDst != []
    ensures var w' := Next(w, step);
            if WritesAtDestination(w, step) then
              w'.givenToDst == Longer(w.givenToDst, w.toDst[0].id, w.toDst[0].event) && w'.givenToSrc == w.givenToSrc
            else if Draws(w, step).Some? then
              && w'.givenToDst == w.givenToDst - {Draws(w, step).value}
              && w'.givenToSrc == w.givenToSrc - {Draws(w, step).value}
            else SameGiven(w, w')
  {
    hide Next, Longer, HandleAtDestination;
    HandlingAtDestination(w, step);
    DestinationTakes(w, w.toDst[0], step.connected, step.drawn);
  }

  lemma {:induction false} DestinationTakes(w: World, m: Message, connected: Option<int>, drawn: Option<int>)
    requires w.toDst != []
    ensures var w' := HandleAtDestination(w, m, connected, drawn);
            if m.Data? && m.event.Chunk? && m.id in w.dst then
              w'.givenToDst == Longer(w.givenToDst, m.id, m.event) && w'.givenToSrc == w.givenToSrc
            else if m.Request? && connected.Some? && drawn.Some? then
              w'.givenToDst == w.givenToDst - {drawn.value} && w'.givenToSrc == w.givenToSrc - {drawn.value}
            else SameGiven(w, w')
  {
    hide Longer;
    var w', rest := HandleAtDestination(w, m, connected, drawn), w.(toDst := w.toDst[1..]);
    match m
    case Request(fd) =>
      if connected.None? || drawn.None? {
        assert w' == rest.(toSrc := w'.toSrc, dstOpen := w'.dstOpen);
      } else {
        assert w' == Forget(rest, drawn.value).(toSrc := w'.toSrc, dstOpen := w'.dstOpen, dst := w'.dst, client := w'.client);
      }
    case Response(_, _) => assert w' == rest;
    case Data(id, event) =>
      if id !in w.dst {
        assert w' == rest;
      } else if event.Chunk? {
        assert w' == rest.(givenToDst := Longer(w.givenToDst, id, event));
      } else {
        assert w' == rest.(dst := w'.dst, dstOpen := w'.dstOpen);
      }
  }

  lemma {:induction false} HandlingAtDestination(w: World, step: Step)
    requires Can(w, step) && step.HandlesAtDestination?
    ensures Next(w, step) == HandleAtDestination(w, w.toDst[0], step.connected, step.drawn)
  {
    hide HandleAtDestination;
  }

  lemma {:induction false} SourceIsHanded(w: World, m: Message)
    requires w.toSrc != []
    ensures var w' := HandleAtSource(w, m);
            && w'.givenToDst == w.givenToDst
            && w'.givenToSrc == if m.Data? && m.event.Chunk? && Live(w.src, m.id) && Partner(w, m.id, FdOf(w.src, m.id))
                                then Longer(w.givenToSrc, m.id, m.event) else w.givenToSrc
  {
    hide WaitingFor, Longer, CloseSourceFd, AddSourceSocketId, CloseSourceSocketId, Live, FdOf, Partner;
    var w', rest := HandleAtSource(w, m), w.(toSrc := w.toSrc[1..]);
    match m
    case Request(_) => assert w' == rest;
    case Response(_, None) => assert w' == rest.(src := w'.src, place := w'.place);
    case Response(_, Some(_)) => assert w' == rest.(src := w'.src, place := w'.place);
    case Data(id, event) =>
      if !event.Chunk? {
        assert w' == rest.(src := w'.src, place := w'.place);
      } else if Live(w.src, id) && Partner(w, id, FdOf(w.src, id)) {
        assert w' == rest.(givenToSrc := Longer(w.givenToSrc, id, event));
      } else {
        assert w' == rest;
      }
  }

  /** What a step hands over, told apart as `NextWritten` does. */
  lemma {:induction false} HandsOver(w: World, step: Step)
    requires Can(w, step)
    ensures WritesAtDestination(w, step) ==> w.toDst != [] && w.toDst[0].Data? && w.toDst[0].event.Chunk?
    ensures WritesAtSource(w, step) ==> w.toSrc != [] && w.toSrc[0].Data? && w.toSrc[0].event.Chunk?
    ensures var w' := Next(w, step);
            if WritesAtDestination(w, step) then
              w'.givenToDst == Longer(w.givenToDst, w.toDst[0].id, w.toDst[0].event) && w'.givenToSrc == w.givenToSrc
            else if WritesAtSource(w, step) then
              w'.givenToDst == w.givenToDst && w'.givenToSrc == Longer(w.givenToSrc, w.toSrc[0].id, w.toSrc[0].event)
            else if Draws(w, step).Some? then
              && w'.givenToDst == w.givenToDst - {Draws(w, step).value}
              && w'.givenToSrc == w.givenToSrc - {Draws(w, step).value}
            else SameGiven(w, w')
  {
    hide Next, Longer, Live, FdOf, Partner, HandleAtSource;
    if step.HandlesAtDestination? {
      DestinationIsHanded(w, step);
    } else if step.HandlesAtSource? {
      HandlingAtSource(w);
      SourceIsHanded(w, w.toSrc[0]);
    } else {
      GatheringHandsNothing(w, step);
    }
  }

  lemma {:induction false} HandlingAtSource(w: World)
    requires Can(w, HandlesAtSource)
    ensures w.toSrc != [] && Next(w, HandlesAtSource) == HandleAtSource(w, w.toSrc[0])
  {
    hide HandleAtSource;
  }

  lemma {:induction false} WriteKeeps(x: Written, act: Act)
    requires WritesInv(x) && Can(x.world, act.step)
    ensures WritesInv(NextWritten(x, act))
  {
    hide Next, Can, Matches, At, Longer, Draws, WritesAtDestination, WritesAtSource, Accepted;
    var w, x' := x.world, NextWritten(x, act);
    HandsOver(w, act.step);
    if WritesAtDestination(w, act.step) {
      WritesHere(x, act);
    } else if WritesAtSource(w, act.step) {
      WritesThere(x, act);
    } else if Draws(w, act.step).Some? {
      StartsOver(x, x', Draws(w, act.step).value);
    }
  }

  lemma {:induction false} WritesHere(x: Written, act: Act)
    requires WritesInv(x) && Can(x.world, act.step) && WritesAtDestination(x.world, act.step)
    ensures var m := x.world.toDst[0];
            forall id :: Matches(Given(OneMore(x.atDst, m.id, m.event.bytes, act.outcomes), id),
                                 At(Longer(x.world.givenToDst, m.id, m.event), id))
  {
    hide Next, Matches;
    var m := x.world.toDst[0];
    MatchesOneMore(Given(x.atDst, m.id), At(x.world.givenToDst, m.id),
                   Delivery(m.event.bytes, Accepted(act.outcomes, |m.event.bytes|)));
    forall id
      ensures Matches(Given(OneMore(x.atDst, m.id, m.event.bytes, act.outcomes), id),
                      At(Longer(x.world.givenToDst, m.id, m.event), id))
    {
      assert Matches(Given(x.atDst, id), At(x.world.givenToDst, id));
    }
  }

  lemma {:induction false} WritesThere(x: Written, act: Act)
    requires WritesInv(x) && Can(x.world, act.step) && WritesAtSource(x.world, act.step)
    ensures var m := x.world.toSrc[0];
            forall id :: Matches(Given(OneMore(x.atSrc, m.id, m.event.bytes, act.outcomes), id),
                                 At(Longer(x.world.givenToSrc, m.id, m.event), id))
  {
    hide Next, Matches, Live, FdOf, Partner;
    var m := x.world.toSrc[0];
    MatchesOneMore(Given(x.atSrc, m.id), At(x.world.givenToSrc, m.id),
                   Delivery(m.event.bytes, Accepted(act.outcomes, |m.event.bytes|)));
    forall id
      ensures Matches(Given(OneMore(x.atSrc, m.id, m.event.bytes, act.outcomes), id),
                      At(Longer(x.world.givenToSrc, m.id, m.event), id))
    {
      assert Matches(Given(x.atSrc, id), At(x.world.givenToSrc, id));
    }
  }

  lemma {:induction false} StartsOver(x: Written, x': Written, drawn: int)
    requires WritesInv(x) && x'.atDst == x.atDst - {drawn} && x'.atSrc == x.atSrc - {drawn}
    requires x'.world.givenToDst == x.world.givenToDst - {drawn} && x'.world.givenToSrc == x.world.givenToSrc - {drawn}
    ensures WritesInv(x')
  {
    hide Matches;
    MatchesNothing();
    forall id
      ensures Matches(Given(x'.atDst, id), At(x'.world.givenToDst, id))
      ensures Matches(Given(x'.atSrc, id), At(x'.world.givenToSrc, id))
    {
      assert Matches(Given(x.atDst, id), At(x.world.givenToDst, id));
    }
  }

  lemma {:induction false} BeginInv(handlers: nat)
    ensures WritesInv(Begin(handlers))
  {
    MatchesNothing();
  }

  function StepsOf(acts: seq<Act>): seq<Step> {
    if acts == [] then [] else [acts[0].step] + StepsOf(acts[1..])
  }

  lemma {:induction false} RunWrites(acts: seq<Act>, x: Written, x': Written)
    requires WritesInv(x) && WrittenRun(acts, x, x')
    ensures WritesInv(x') && CarefulRun(StepsOf(acts), x.world, x'.world)
    decreases |acts|
  {
    hide WritesInv, Can, Careful, Next, CarefulRun;
    if acts == [] {
      NoSteps(x.world);
    } else {
      WriteKeeps(x, acts[0]);
      var x1 := NextWritten(x, acts[0]);
      RunWrites(acts[1..], x1, x');
      CarefulStepFirst(acts[0].step, StepsOf(acts[1..]), x.world, x'.world);
    }
  }

  /** The state after a run from the start. */
  ghost predicate Happens(handlers: nat, acts: seq<Act>, x: Written) {
    WrittenRun(acts, Begin(handlers), x)
  }

  lemma {:induction false} PrefixInTurn(a: Bytes, b: Bytes, c: Bytes)
    requires a <= b && b <= c
    ensures a <= c
  {
  }

  /** What was written to the socket of an id, at the destination end or at the source end. */
  function WrittenAt(x: Written, id: int, atDestination: bool): seq<Delivery> {
    Given(if atDestination then x.atDst else x.atSrc, id)
  }

  /** What was read from the partner of that socket. */
  function ReadFor(x: Written, id: int, atDestination: bool): Bytes {
    At(if atDestination then x.world.readAtSrc else x.world.readAtDst, id)
  }

  /** What reaches the socket is a prefix of what was read from its partner. */
  ghost predicate ArrivesInOrder(x: Written, id: int, atDestination: bool) {
    var deliveries := WrittenAt(x, id, atDestination);
    Fit(Chunks(deliveries), Counts(deliveries)) && Arrived(deliveries) <= ReadFor(x, id, atDestination)
  }

  /** While nothing is written after a write that stopped short, what reaches a socket is a prefix
      of what was read from its partner. */
  lemma {:induction false} ArrivesAsPrefix(handlers: nat, acts: seq<Act>, x: Written, id: int, atDestination: bool,
                                           lengths: seq<nat>, written: seq<nat>)
    requires Happens(handlers, acts, x)
    requires OfShape(WrittenAt(x, id, atDestination), lengths, written) && NoGap(lengths, written)
    ensures ArrivesInOrder(x, id, atDestination)
  {
    hide WrittenRun, Start, NoGap, Reached, Flat, At, CarefulRun;
    BeginInv(handlers);
    RunWrites(acts, Begin(handlers), x);
    Theorems.BytesArePrefixes(handlers, StepsOf(acts), x.world, id);
    var given := At(if atDestination then x.world.givenToDst else x.world.givenToSrc, id);
    assert Matches(WrittenAt(x, id, atDestination), given);
    NoGapIsPrefix(Chunks(WrittenAt(x, id, atDestination)), lengths, written);
    PrefixInTurn(Arrived(WrittenAt(x, id, atDestination)), given, ReadFor(x, id, atDestination));
  }

  // ----- a run for any writes -----

  lemma {:induction false} ActFirst(act: Act, acts: seq<Act>, x: Written, x': Written)
    requires Can(x.world, act.step) && Careful(x.world, act.step) && WrittenRun(acts, NextWritten(x, act), x')
    ensures WrittenRun([act] + acts, x, x')
  {
    hide Can, Careful, NextWritten;
    assert ([act] + acts)[1..] == acts;
  }

  lemma {:induction false} NoActs(x: Written)
    ensures WrittenRun([], x, x)
  {
  }

  lemma {:induction false} ActsInTurn(a: seq<Act>, b: seq<Act>, x: Written, x1: Written, x2: Written)
    requires WrittenRun(a, x, x1) && WrittenRun(b, x1, x2)
    ensures WrittenRun(a + b, x, x2)
    decreases |a|
  {
    hide Can, Careful, NextWritten;
    if a == [] {
      assert a + b == b;
    } else {
      assert (a + b)[1..] == a[1..] + b;
      ActsInTurn(a[1..], b, NextWritten(x, a[0]), x1, x2);
    }
  }

  /** The connection is open at both ends, and nothing is on its way. */
  predicate Quiet(w: World, id: int) {
    && Live(w.src, id) && Partner(w, id, FdOf(w.src, id)) && id in w.dst
    && w.toDst == [] && w.toSrc == [] && w.requests == [] && w.data == [] && w.dstData == []
  }

  /** A step that neither draws nor writes. */
  lemma {:induction false} PlainAct(x: Written, step: Step)
    requires Can(x.world, step) && !step.HandlesAtDestination? && !step.HandlesAtSource?
    ensures Careful(x.world, step) && NextWritten(x, Act(step, [])) == x.(world := Next(x.world, step))
  {
    hide Can, Next;
  }

  lemma {:induction false} TakesSome(n: nat, count: nat)
    requires n <= count
    ensures Accepted([Wrote(n), Fails], count) == n
  {
    assert [Wrote(n), Fails][1..] == [Fails];
  }

  /** A chunk is read at the source end, sent, and written as far as it is taken. */
  lemma {:induction false} OverAct(x: Written, id: int, d: Delivery) returns (acts: seq<Act>, x': Written)
    requires Quiet(x.world, id) && d.chunk != [] && d.written <= |d.chunk|
    ensures WrittenRun(acts, x, x') && Quiet(x'.world, id)
    ensures Given(x'.atDst, id) == Given(x.atDst, id) + [d]
    ensures At(x'.world.readAtSrc, id) == At(x.world.readAtSrc, id) + d.chunk
  {
    hide Live, FdOf, WrittenRun, Next, Can, Careful, NextWritten, At;
    var w := x.world;
    LiveReads(w, id, d.chunk);
    var pulls, takes := ReadsSource(w.src.routes[id], id, Chunk(d.chunk)), HandlesAtDestination(None, None);
    LongerAt(w.readAtSrc, id, Chunk(d.chunk));
    PlainAct(x, pulls);
    var x1 := x.(world := Next(w, pulls));
    SendsOne(x1.world, Data(id, Chunk(d.chunk)));
    PlainAct(x1, SendsSource);
    var x2 := x1.(world := Next(x1.world, SendsSource));
    var act := Act(takes, [Wrote(d.written), Fails]);
    TakesSome(d.written, |d.chunk|);
    TakesOne(x2, id, d.chunk, act);
    x' := NextWritten(x2, act);
    NoActs(x');
    ActFirst(act, [], x2, x');
    ActFirst(Act(SendsSource, []), [act] + [], x1, x');
    ActFirst(Act(pulls, []), [Act(SendsSource, [])] + ([act] + []), x, x');
    acts := [Act(pulls, [])] + ([Act(SendsSource, [])] + ([act] + []));
  }

  lemma {:induction false} LiveReads(w: World, id: int, chunk: Bytes)
    requires Quiet(w, id) && chunk != []
    ensures id in w.src.routes
    ensures var step := ReadsSource(w.src.routes[id], id, Chunk(chunk));
            Can(w, step) && Next(w, step) == w.(data := [Data(id, Chunk(chunk))],
                                                readAtSrc := Longer(w.readAtSrc, id, Chunk(chunk)))
  {
    hide Longer;
    assert w.data + [Data(id, Chunk(chunk))] == [Data(id, Chunk(chunk))];
  }

  lemma {:induction false} SendsOne(w: World, m: Message)
    requires w.toDst == [] && w.requests == [] && w.data == [m]
    ensures Can(w, SendsSource) && Next(w, SendsSource) == w.(toDst := [m], data := [])
  {
    assert w.toDst + w.requests + w.data == [m];
  }

  lemma {:induction false} TakesOne(x: Written, id: int, chunk: Bytes, act: Act)
    requires x.world.toDst == [Data(id, Chunk(chunk))] && Quiet(x.world.(toDst := []), id)
    requires act.step == HandlesAtDestination(None, None)
    ensures Can(x.world, act.step) && Careful(x.world, act.step)
    ensures var x' := NextWritten(x, act);
            && Quiet(x'.world, id) && x'.world.readAtSrc == x.world.readAtSrc
            && Given(x'.atDst, id) == Given(x.atDst, id) + [Delivery(chunk, Accepted(act.outcomes, |chunk|))]
  {
    hide Longer, Accepted, Live, FdOf;
    var w := x.world;
    assert Next(w, act.step) == w.(toDst := [], givenToDst := Longer(w.givenToDst, id, Chunk(chunk)));
  }

  /** One after the other. */
  lemma {:induction false} OverActs(x: Written, id: int, deliveries: seq<Delivery>) returns (acts: seq<Act>, x': Written)
    requires Quiet(x.world, id)
    requires forall i :: 0 <= i < |deliveries| ==> deliveries[i].chunk != [] && deliveries[i].written <= |deliveries[i].chunk|
    ensures WrittenRun(acts, x, x') && Quiet(x'.world, id)
    ensures Given(x'.atDst, id) == Given(x.atDst, id) + deliveries
    ensures At(x'.world.readAtSrc, id) == At(x.world.readAtSrc, id) + Flat(Chunks(deliveries))
    decreases |deliveries|
  {
    hide Quiet, WrittenRun, At, Given;
    if deliveries == [] {
      acts, x' := [], x;
      NoActs(x);
      assert Given(x.atDst, id) + [] == Given(x.atDst, id);
      assert At(x.world.readAtSrc, id) + [] == At(x.world.readAtSrc, id);
    } else {
      var first, x1 := OverAct(x, id, deliveries[0]);
      var rest;
      rest, x' := OverActs(x1, id, deliveries[1..]);
      ActsInTurn(first, rest, x, x1, x');
      acts := first + rest;
      AddedInTurn(deliveries, Given(x.atDst, id), At(x.world.readAtSrc, id));
    }
  }

  lemma {:induction false} AddedInTurn(deliveries: seq<Delivery>, before: seq<Delivery>, read: Bytes)
    requires deliveries != []
    ensures before + [deliveries[0]] + deliveries[1..] == before + deliveries
    ensures read + deliveries[0].chunk + Flat(Chunks(deliveries[1..])) == read + Flat(Chunks(deliveries))
  {
    assert Chunks(deliveries)[1..] == Chunks(deliveries[1..]);
    assert read + deliveries[0].chunk + Flat(Chunks(deliveries[1..])) ==
           read + (deliveries[0].chunk + Flat(Chunks(deliveries[1..])));
  }

  // The same the other way.

  lemma {:induction false} BackAct(x: Written, id: int, d: Delivery) returns (acts: seq<Act>, x': Written)
    requires Quiet(x.world, id) && d.chunk != [] && d.written <= |d.chunk|
    ensures WrittenRun(acts, x, x') && Quiet(x'.world, id)
    ensures Given(x'.atSrc, id) == Given(x.atSrc, id) + [d]
    ensures At(x'.world.readAtDst, id) == At(x.world.readAtDst, id) + d.chunk
  {
    hide Live, FdOf, WrittenRun, Next, Can, Careful, NextWritten, At;
    var w := x.world;
    var pulls := ReadsDestination(id, Chunk(d.chunk));
    DestinationReadsOne(w, id, d.chunk);
    LongerAt(w.readAtDst, id, Chunk(d.chunk));
    PlainAct(x, pulls);
    var x1 := x.(world := Next(w, pulls));
    SendsBack(x1.world, Data(id, Chunk(d.chunk)));
    PlainAct(x1, SendsDestination);
    var x2 := x1.(world := Next(x1.world, SendsDestination));
    var act := Act(HandlesAtSource, [Wrote(d.written), Fails]);
    TakesSome(d.written, |d.chunk|);
    SourceTakesOne(x2, id, d.chunk, act);
    x' := NextWritten(x2, act);
    NoActs(x');
    ActFirst(act, [], x2, x');
    ActFirst(Act(SendsDestination, []), [act] + [], x1, x');
    ActFirst(Act(pulls, []), [Act(SendsDestination, [])] + ([act] + []), x, x');
    acts := [Act(pulls, [])] + ([Act(SendsDestination, [])] + ([act] + []));
  }

  lemma {:induction false} DestinationReadsOne(w: World, id: int, chunk: Bytes)
    requires Quiet(w, id) && chunk != []
    ensures var step := ReadsDestination(id, Chunk(chunk));
            Can(w, step) && Next(w, step) == w.(dstData := [Data(id, Chunk(chunk))],
                                                readAtDst := Longer(w.readAtDst, id, Chunk(chunk)))
  {
    hide Longer, Live, FdOf;
    assert w.dstData + [Data(id, Chunk(chunk))] == [Data(id, Chunk(chunk))];
  }

  lemma {:induction false} SendsBack(w: World, m: Message)
    requires w.toSrc == [] && w.dstData == [m]
    ensures Can(w, SendsDestination) && Next(w, SendsDestination) == w.(toSrc := [m], dstData := [])
  {
    assert w.toSrc + w.dstData == [m];
  }

  lemma {:induction false} SourceTakesOne(x: Written, id: int, chunk: Bytes, act: Act)
    requires x.world.toSrc == [Data(id, Chunk(chunk))] && Quiet(x.world.(toSrc := []), id)
    requires act.step == HandlesAtSource
    ensures Can(x.world, act.step) && Careful(x.world, act.step)
    ensures var x' := NextWritten(x, act);
            && Quiet(x'.world, id) && x'.world.readAtDst == x.world.readAtDst
            && Given(x'.atSrc, id) == Given(x.atSrc, id) + [Delivery(chunk, Accepted(act.outcomes, |chunk|))]
  {
    hide Longer, Accepted, Live, FdOf;
    var w := x.world;
    assert Next(w, act.step) == w.(toSrc := [], givenToSrc := Longer(w.givenToSrc, id, Chunk(chunk)));
  }

  lemma {:induction false} BackActs(x: Written, id: int, deliveries: seq<Delivery>) returns (acts: seq<Act>, x': Written)
    requires Quiet(x.world, id)
    requires forall i :: 0 <= i < |deliveries| ==> deliveries[i].chunk != [] && deliveries[i].written <= |deliveries[i].chunk|
    ensures WrittenRun(acts, x, x') && Quiet(x'.world, id)
    ensures Given(x'.atSrc, id) == Given(x.atSrc, id) + deliveries
    ensures At(x'.world.readAtDst, id) == At(x.world.readAtDst, id) + Flat(Chunks(deliveries))
    decreases |deliveries|
  {
    hide Quiet, WrittenRun, At, Given;
    if deliveries == [] {
      acts, x' := [], x;
      NoActs(x);
      assert Given(x.atSrc, id) + [] == Given(x.atSrc, id);
      assert At(x.world.readAtDst, id) + [] == At(x.world.readAtDst, id);
    } else {
      var first, x1 := BackAct(x, id, deliveries[0]);
      var rest;
      rest, x' := BackActs(x1, id, deliveries[1..]);
      ActsInTurn(first, rest, x, x1, x');
      acts := first + rest;
      AddedInTurn(deliveries, Given(x.atSrc, id), At(x.world.readAtDst, id));
    }
  }

  /** From the start a connection opens with socket id 7. */
  lemma {:induction false} Opens(k: nat) returns (acts: seq<Act>)
    requires k <= 4
    ensures WrittenRun(acts, Written(Stage(k), map[], map[]), Written(Stage(4), map[], map[]))
    decreases 4 - k
  {
    hide Stage, Next, Can, Careful, NextWritten;
    acts := [];
    if k < 4 {
      StageFollows(k);
      StageWrites(k);
      var rest := Opens(k + 1);
      ActFirst(Act(StageStep(k), []), rest, Written(Stage(k), map[], map[]), Written(Stage(4), map[], map[]));
      acts := [Act(StageStep(k), [])] + rest;
    }
  }

  lemma {:induction false} StageWrites(k: nat)
    requires k < 4 && Can(Stage(k), StageStep(k)) && Next(Stage(k), StageStep(k)) == Stage(k + 1)
    ensures NextWritten(Written(Stage(k), map[], map[]), Act(StageStep(k), [])) == Written(Stage(k + 1), map[], map[])
  {
    hide Next;
    var none: map<int, seq<Delivery>> := map[];
    assert none - {7} == none;
  }

  function Zip(chunks: seq<Bytes>, written: seq<nat>): (deliveries: seq<Delivery>)
    requires |chunks| == |written|
    ensures |deliveries| == |chunks| && Chunks(deliveries) == chunks && Counts(deliveries) == written
  {
    seq(|chunks|, i requires 0 <= i < |chunks| => Delivery(chunks[i], written[i]))
  }

  /** Some run makes writes of these chunks and counts, at either end. */
  lemma {:induction false} AnyWritesHappen(chunks: seq<Bytes>, written: seq<nat>, atDestination: bool)
    returns (acts: seq<Act>, x: Written)
    requires Fit(chunks, written) && forall i :: 0 <= i < |chunks| ==> chunks[i] != []
    ensures Happens(1, acts, x)
    ensures WrittenAt(x, 7, atDestination) == Zip(chunks, written) && ReadFor(x, 7, atDestination) == Flat(chunks)
  {
    hide WrittenRun, Flat, Zip;
    var once := Written(Stage(4), map[], map[]);
    var first := Opens(0);
    var deliveries := Zip(chunks, written);
    assert Quiet(once.world, 7);
    forall i | 0 <= i < |deliveries|
      ensures deliveries[i].chunk != [] && deliveries[i].written <= |deliveries[i].chunk|
    {
      assert Chunks(deliveries)[i] == chunks[i] && Counts(deliveries)[i] == written[i];
    }
    if atDestination {
      acts, x := OverActs(once, 7, deliveries);
    } else {
      acts, x := BackActs(once, 7, deliveries);
    }
    ActsInTurn(first, acts, Begin(1), once, x);
    acts := first + acts;
  }

  /** Whatever the run, if the writes to a socket have these lengths and these counts of them were
      written, what reaches it is a prefix of what was read from its partner. */
  ghost predicate InOrderInEveryRun(lengths: seq<nat>, written: seq<nat>, atDestination: bool) {
    forall handlers, acts, x, id ::
      Happens(handlers, acts, x) && OfShape(WrittenAt(x, id, atDestination), lengths, written) ==>
        ArrivesInOrder(x, id, atDestination)
  }

  /** At either end, writes leave a prefix of what was read in every run if and only if nothing is
      written after a write that stopped short. */
  lemma {:induction false} InOrderInEveryRunIff(lengths: seq<nat>, written: seq<nat>, atDestination: bool)
    requires |lengths| == |written|
    requires forall i :: 0 <= i < |lengths| ==> 0 < lengths[i] && written[i] <= lengths[i]
    ensures InOrderInEveryRun(lengths, written, atDestination) <==> NoGap(lengths, written)
  {
    hide NoGap, Happens, ArrivesInOrder, OfShape;
    if NoGap(lengths, written) {
      forall handlers, acts, x, id
        | Happens(handlers, acts, x) && OfShape(WrittenAt(x, id, atDestination), lengths, written)
        ensures ArrivesInOrder(x, id, atDestination)
      {
        ArrivesAsPrefix(handlers, acts, x, id, atDestination, lengths, written);
      }
    } else {
      var acts, x := GapsHappen(lengths, written, atDestination);
    }
  }

  /** For any gap there is a run in which what reaches a socket is no prefix of what was read. */
  lemma {:induction false} GapsHappen(lengths: seq<nat>, written: seq<nat>, atDestination: bool)
    returns (acts: seq<Act>, x: Written)
    requires |lengths| == |written| && !NoGap(lengths, written)
    requires forall i :: 0 <= i < |lengths| ==> 0 < lengths[i] && written[i] <= lengths[i]
    ensures Happens(1, acts, x) && OfShape(WrittenAt(x, 7, atDestination), lengths, written)
    ensures !ArrivesInOrder(x, 7, atDestination)
  {
    hide NoGap, Happens, Reached, Flat, At, Zip;
    var chunks := GapBreaks(lengths, written);
    acts, x := AnyWritesHappen(chunks, written, atDestination);
  }

  /** Two bytes are read of which one is written, and then a third: the socket gets the first and
      the third. */
  lemma {:induction false} SecondByteLost() returns (acts: seq<Act>, x: Written)
    ensures Happens(1, acts, x)
    ensures ReadFor(x, 7, true) == [1, 2, 3] && WrittenAt(x, 7, true) == [Delivery([1, 2], 1), Delivery([3], 1)]
    ensures Fit(Chunks(WrittenAt(x, 7, true)), Counts(WrittenAt(x, 7, true))) && Arrived(WrittenAt(x, 7, true)) == [1, 3]
  {
    hide Happens, WrittenAt, ReadFor;
    var chunks: seq<Bytes> := [[1, 2], [3]];
    acts, x := AnyWritesHappen(chunks, [1, 1], true);
    var deliveries := Zip(chunks, [1, 1]);
    assert deliveries == [Delivery([1, 2], 1), Delivery([3], 1)];
    assert chunks[1..] == [[3]] && chunks[1..][1..] == [];
    assert Flat(chunks[1..]) == [3] + [];
    assert [1, 1][1..] == [1];
    assert Reached(chunks[1..], [1]) == [3] by {
      assert [3][..1] == [3] && [1][1..] == [];
    }
    assert [1, 2][..1] == [1];
  }
}
