/** A round of polling, as the handlers do it, is a run of the two-ended model, and handling a
    packet is a step of it (src/terminal/forwarding/PortForwardHandler.cpp). */
module ForwardingPolls {
  import opened Wire
  import opened Forwarding
  import opened ForwardingProof
  import opened ForwardSockets
  import opened PortForward

  // ----- what a round does -----

  function PolledBy(h: Source, incoming: map<int, seq<Read>>, id: int): seq<Event> {
    if id in h.sockets then Polled(Ready(incoming, h.sockets[id])) else []
  }

  /** A source handler after a poll of its sockets, with what it accepted. */
  function AfterUpdate(e: SourceEnd, i: nat, incoming: map<int, seq<Read>>, fd: int): SourceEnd
    requires i < |e.handlers|
  {
    var e' := e.(handlers := e.handlers[i := AfterPoll(e.handlers[i], incoming)]);
    if fd == -1 then e' else Accept(e', i, fd)
  }

  function AfterUpdates(e: SourceEnd, n: nat, incoming: map<int, seq<Read>>, fds: seq<int>): (e': SourceEnd)
    requires n <= |e.handlers| && n <= |fds|
    ensures |e'.handlers| == |e.handlers| && e'.routes == e.routes
    ensures forall k :: n <= k < |e.handlers| ==> e'.handlers[k] == e.handlers[k]
  {
    if n == 0 then e else AfterUpdate(AfterUpdates(e, n - 1, incoming, fds), n - 1, incoming, fds[n - 1])
  }

  /** One request for each accepted fd. */
  function RequestsFor(fds: seq<int>): seq<Message> {
    if fds == [] then []
    else RequestsFor(fds[..|fds| - 1]) + if fds[|fds| - 1] >= 0 then [Request(fds[|fds| - 1])] else []
  }

  /** The events of a socket id, if one of the first `n` handlers has it. */
  function PolledUpTo(e: SourceEnd, n: nat, incoming: map<int, seq<Read>>, id: int): seq<Event> {
    if id in e.routes && e.routes[id] < n && n <= |e.handlers| then PolledBy(e.handlers[e.routes[id]], incoming, id)
    else []
  }

  ghost predicate Unheld(e: SourceEnd, fd: int) {
    forall i :: 0 <= i < |e.handlers| ==> fd !in FdsIn(e.handlers[i])
  }

  /** What each handler accepts, after its poll, is held by no handler. */
  ghost predicate AcceptsNew(e: SourceEnd, n: nat, incoming: map<int, seq<Read>>, fds: seq<int>)
    requires n <= |e.handlers| && n <= |fds|
  {
    n == 0 || (AcceptsNew(e, n - 1, incoming, fds) &&
               NewAt(AfterUpdates(e, n - 1, incoming, fds), n - 1, incoming, fds[n - 1]))
  }

  ghost predicate NewAt(e: SourceEnd, i: nat, incoming: map<int, seq<Read>>, fd: int)
    requires i < |e.handlers|
  {
    fd == -1 || (fd >= 0 && Unheld(AfterUpdate(e, i, incoming, -1), fd))
  }

  // ----- one socket -----

  function SourceReads(i: nat, id: int, events: seq<Event>): seq<Step> {
    if events == [] then [] else [ReadsSource(i, id, events[0])] + SourceReads(i, id, events[1..])
  }

  function DestinationReads(id: int, events: seq<Event>): seq<Step> {
    if events == [] then [] else [ReadsDestination(id, events[0])] + DestinationReads(id, events[1..])
  }

  /** All but the source end's own sockets, gathered data and histories. */
  predicate OnlySourceRead(w: World, w': World) {
    && w'.dst == w.dst && w'.dstOpen == w.dstOpen && w'.dstData == w.dstData
    && w'.toDst == w.toDst && w'.toSrc == w.toSrc && w'.client == w.client
  }

  predicate OnlyDestinationRead(w: World, w': World) {
    && w'.src == w.src && w'.place == w.place && w'.requests == w.requests && w'.data == w.data
    && w'.toDst == w.toDst && w'.toSrc == w.toSrc && w'.client == w.client
  }

  lemma {:induction false} OrderedTail(events: seq<Event>)
    requires events != [] && Ordered(events)
    ensures Ordered(events[1..]) && (|events| > 1 ==> events[0].Chunk?)
    ensures HasEnd(events) <==> !events[0].Chunk? || HasEnd(events[1..])
  {
    forall k | 0 <= k < |events| - 2
      ensures events[1..][k].Chunk?
    {
      assert events[1..][k] == events[k + 1];
    }
    if HasEnd(events) {
      var k :| 0 <= k < |events| && !events[k].Chunk?;
      assert k > 0 ==> !events[1..][k - 1].Chunk?;
    }
    if HasEnd(events[1..]) {
      var k :| 0 <= k < |events| - 1 && !events[1..][k].Chunk?;
      assert !events[k + 1].Chunk?;
    }
  }

  lemma {:induction false} NothingLeft()
    ensures !HasEnd([])
  {
  }

  lemma {:induction false} EventsCons(before: seq<Event>, events: seq<Event>)
    requires events != []
    ensures (before + [events[0]]) + events[1..] == before + events
  {
  }

  lemma {:induction false} SourceReadsNothing(w: World, i: nat, id: int)
    ensures Runs(SourceReads(i, id, []), w, w) && Runs(DestinationReads(id, []), w, w)
    ensures forall before: seq<Event> :: before + [] == before
  {
  }

  /** What reading one event does. */
  lemma {:induction false} SourceReadEffect(w: World, i: nat, id: int, event: Event)
    requires PlacesOk(w.src, w.place) && Can(w, ReadsSource(i, id, event))
    ensures var w' := Next(w, ReadsSource(i, id, event));
            && OnlySourceRead(w, w') && w'.requests == w.requests && w'.data == w.data + [Data(id, event)]
            && (event.Chunk? ==> w'.src == w.src)
            && (!event.Chunk? ==> w'.src == SourceEnded(w.src, i, id))
            && PlacesOk(w'.src, w'.place)
  {
    hide Longer, PlacesOk, Partner;
    EndPlaces(w.src, w.place, i, id);
  }

  /** Reading these events in turn drops the socket if and only if one of them is its end. */
  lemma {:induction false} SourceEventsAreARun(w: World, i: nat, id: int, events: seq<Event>) returns (w': World)
    requires PlacesOk(w.src, w.place) && Ordered(events) && NoEmptyChunk(events)
    requires events != [] ==> i < |w.src.handlers| && id in w.src.handlers[i].sockets
    ensures Runs(SourceReads(i, id, events), w, w') && OnlySourceRead(w, w') && w'.requests == w.requests
    ensures w'.src == (if HasEnd(events) then SourceEnded(w.src, i, id) else w.src) && PlacesOk(w'.src, w'.place)
    ensures EventsOf(w'.data, id) == EventsOf(w.data, id) + events
    ensures forall other :: other != id ==> EventsOf(w'.data, other) == EventsOf(w.data, other)
    decreases |events|
  {
    hide Next, EventsOf, Ordered, HasEnd, SourceEnded, Runs, PlacesOk;
    if events == [] {
      w' := w;
      NothingLeft();
      SourceReadsNothing(w, i, id);
    } else {
      var step := ReadsSource(i, id, events[0]);
      OrderedTail(events);
      NothingLeft();
      SourceReadEffect(w, i, id, events[0]);
      EventsFollow(id, w.data, events[0]);
      EventsCons(EventsOf(w.data, id), events);
      w' := SourceEventsAreARun(Next(w, step), i, id, events[1..]);
      OneStepFirst(step, SourceReads(i, id, events[1..]), w, w');
    }
  }

  /** A poll of a source socket, whatever it has ready, is a run of the model. */
  lemma {:induction false} SourcePollIsARun(w: World, i: nat, id: int, ready: seq<Read>) returns (w': World)
    requires PlacesOk(w.src, w.place) && i < |w.src.handlers| && id in w.src.handlers[i].sockets
    ensures Runs(SourceReads(i, id, Polled(ready)), w, w') && OnlySourceRead(w, w') && w'.requests == w.requests
    ensures w'.src == (if Ends(ready) then SourceEnded(w.src, i, id) else w.src) && PlacesOk(w'.src, w'.place)
    ensures EventsOf(w'.data, id) == EventsOf(w.data, id) + Polled(ready)
    ensures forall other :: other != id ==> EventsOf(w'.data, other) == EventsOf(w.data, other)
  {
    hide Runs, EventsOf, Polled, Ends, HasEnd, SourceEnded, PlacesOk;
    EndsWhenPolled(ready);
    w' := SourceEventsAreARun(w, i, id, Polled(ready));
  }

  lemma {:induction false} DestinationReadEffect(w: World, id: int, event: Event)
    requires Can(w, ReadsDestination(id, event))
    ensures var w' := Next(w, ReadsDestination(id, event));
            && OnlyDestinationRead(w, w') && w'.dstData == w.dstData + [Data(id, event)]
            && w'.dst == if event.Chunk? then w.dst else w.dst - {id}
  {
    hide Longer;
  }

  lemma {:induction false} DestinationEventsAreARun(w: World, id: int, events: seq<Event>) returns (w': World)
    requires Ordered(events) && NoEmptyChunk(events) && (events != [] ==> id in w.dst)
    ensures Runs(DestinationReads(id, events), w, w') && OnlyDestinationRead(w, w')
    ensures w'.dst == if HasEnd(events) then w.dst - {id} else w.dst
    ensures EventsOf(w'.dstData, id) == EventsOf(w.dstData, id) + events
    ensures forall other :: other != id ==> EventsOf(w'.dstData, other) == EventsOf(w.dstData, other)
    decreases |events|
  {
    hide Next, EventsOf, Ordered, HasEnd, Runs;
    if events == [] {
      w' := w;
      NothingLeft();
      SourceReadsNothing(w, 0, id);
    } else {
      var step := ReadsDestination(id, events[0]);
      OrderedTail(events);
      NothingLeft();
      DestinationReadEffect(w, id, events[0]);
      EventsFollow(id, w.dstData, events[0]);
      EventsCons(EventsOf(w.dstData, id), events);
      w' := DestinationEventsAreARun(Next(w, step), id, events[1..]);
      OneStepFirst(step, DestinationReads(id, events[1..]), w, w');
    }
  }

  /** A poll of a destination socket is a run of the model. */
  lemma {:induction false} DestinationPollIsARun(w: World, id: int, ready: seq<Read>) returns (w': World)
    requires id in w.dst
    ensures Runs(DestinationReads(id, Polled(ready)), w, w') && OnlyDestinationRead(w, w')
    ensures w'.dst == if Ends(ready) then w.dst - {id} else w.dst
    ensures EventsOf(w'.dstData, id) == EventsOf(w.dstData, id) + Polled(ready)
    ensures forall other :: other != id ==> EventsOf(w'.dstData, other) == EventsOf(w.dstData, other)
  {
    hide Runs, EventsOf, Polled, Ends, HasEnd;
    EndsWhenPolled(ready);
    w' := DestinationEventsAreARun(w, id, Polled(ready));
  }

  // ----- a whole round at the source end -----

  /** The handler after a poll of the sockets `ids`. */
  function PolledIds(h: Source, incoming: map<int, seq<Read>>, ids: set<int>): Source {
    h.(sockets := map id | id in h.sockets && !(id in ids && Ends(Ready(incoming, h.sockets[id]))) :: h.sockets[id])
  }

  lemma {:induction false} PolledIdsStep(h: Source, incoming: map<int, seq<Read>>, ids: set<int>, id: int)
    requires id in ids && id in h.sockets
    ensures id in PolledIds(h, incoming, ids - {id}).sockets
    ensures PolledIds(h, incoming, ids - {id}).sockets[id] == h.sockets[id]
    ensures PolledIds(h, incoming, ids) ==
            if Ends(Ready(incoming, h.sockets[id])) then CloseSocket(PolledIds(h, incoming, ids - {id}), id)
            else PolledIds(h, incoming, ids - {id})
  {
    hide Ends, Ready;
    var before, after := PolledIds(h, incoming, ids - {id}), PolledIds(h, incoming, ids);
    if Ends(Ready(incoming, h.sockets[id])) {
      assert after.sockets == before.sockets - {id};
    } else {
      assert after.sockets == before.sockets;
    }
  }

  lemma {:induction false} PolledIdsEnds(h: Source, incoming: map<int, seq<Read>>)
    ensures PolledIds(h, incoming, {}) == h && PolledIds(h, incoming, h.sockets.Keys) == AfterPoll(h, incoming)
  {
    hide Ends, Ready;
    assert PolledIds(h, incoming, {}).sockets == h.sockets;
    assert PolledIds(h, incoming, h.sockets.Keys).sockets == AfterPoll(h, incoming).sockets;
  }

  /** What a poll of the sockets `ids` of a handler adds to the gathered data. */
  ghost predicate GainsOf(w: World, w': World, h: Source, incoming: map<int, seq<Read>>, ids: set<int>) {
    forall id :: EventsOf(w'.data, id) ==
                 EventsOf(w.data, id) + if id in ids && id in h.sockets then Polled(Ready(incoming, h.sockets[id])) else []
  }

  lemma {:induction false} HandlerPollIsARun(w: World, i: nat, h: Source, incoming: map<int, seq<Read>>, ids: set<int>)
    returns (steps: seq<Step>, w': World)
    requires PlacesOk(w.src, w.place) && i < |w.src.handlers| && w.src.handlers[i] == h && ids <= h.sockets.Keys
    ensures Runs(steps, w, w') && OnlySourceRead(w, w') && w'.requests == w.requests
    ensures w'.src == w.src.(handlers := w.src.handlers[i := PolledIds(h, incoming, ids)])
    ensures PlacesOk(w'.src, w'.place) && GainsOf(w, w', h, incoming, ids)
    decreases |ids|
  {
    hide Runs, EventsOf, Polled, Ends, Ready, PlacesOk, PolledIds;
    if ids == {} {
      steps, w' := [], w;
      RunsNothing(w);
      PolledIdsEnds(h, incoming);
      assert w.src.handlers[i := h] == w.src.handlers;
      forall id
        ensures EventsOf(w.data, id) + [] == EventsOf(w.data, id)
      {
      }
    } else {
      SomeId(ids);
      var id :| id in ids;
      var w1;
      steps, w1 := HandlerPollIsARun(w, i, h, incoming, ids - {id});
      PolledIdsStep(h, incoming, ids, id);
      var ready := Ready(incoming, h.sockets[id]);
      w' := SourcePollIsARun(w1, i, id, ready);
      RunsInTurn(steps, SourceReads(i, id, Polled(ready)), w, w1, w');
      steps := steps + SourceReads(i, id, Polled(ready));
      assert w'.src.handlers == w.src.handlers[i := PolledIds(h, incoming, ids)];
      GainsGrow(w, w1, w', h, incoming, ids, id);
    }
  }

  lemma {:induction false} RunsNothing(w: World)
    ensures Runs([], w, w)
  {
  }

  lemma {:induction false} GainsGrow(w: World, w1: World, w': World, h: Source, incoming: map<int, seq<Read>>,
                                     ids: set<int>, id: int)
    requires GainsOf(w, w1, h, incoming, ids - {id}) && id in ids && id in h.sockets
    requires EventsOf(w'.data, id) == EventsOf(w1.data, id) + Polled(Ready(incoming, h.sockets[id]))
    requires forall other :: other != id ==> EventsOf(w'.data, other) == EventsOf(w1.data, other)
    ensures GainsOf(w, w', h, incoming, ids)
  {
    hide EventsOf, Polled, Ready;
    assert EventsOf(w.data, id) + [] == EventsOf(w.data, id);
  }

  /** One handler: its poll, and what it accepts then. */
  lemma {:induction false} HandlerUpdateIsARun(w: World, i: nat, incoming: map<int, seq<Read>>, fd: int)
    returns (steps: seq<Step>, w': World)
    requires PlacesOk(w.src, w.place) && i < |w.src.handlers| && NewAt(w.src, i, incoming, fd)
    ensures Runs(steps, w, w') && OnlySourceRead(w, w')
    ensures w'.src == AfterUpdate(w.src, i, incoming, fd) && PlacesOk(w'.src, w'.place)
    ensures w'.requests == w.requests + if fd >= 0 then [Request(fd)] else []
    ensures forall id :: EventsOf(w'.data, id) == EventsOf(w.data, id) + PolledBy(w.src.handlers[i], incoming, id)
  {
    hide Runs, EventsOf, Polled, Ends, Ready, PlacesOk, Unheld, PolledIds, AfterPoll, Accept;
    var h := w.src.handlers[i];
    var w1;
    steps, w1 := HandlerPollIsARun(w, i, h, incoming, h.sockets.Keys);
    PolledIdsEnds(h, incoming);
    if fd == -1 {
      w' := w1;
      assert w1.requests == w.requests + [];
    } else {
      UnheldIsClosed(w1.src, w1.place, fd);
      var step := Accepts(i, fd);
      w' := Next(w1, step);
      AcceptPlaces(w1.src, w1.place, i, fd);
      RunsNothing(w');
      OneStepFirst(step, [], w1, w');
      RunsInTurn(steps, [step] + [], w, w1, w');
      steps := steps + ([step] + []);
    }
  }

  lemma {:induction false} UnheldIsClosed(e: SourceEnd, place: map<int, Place>, fd: int)
    requires PlacesOk(e, place) && Unheld(e, fd)
    ensures fd !in place
  {
    if fd in place {
      assert Held(e, fd, place[fd]);
      HeldIsIn(e, place[fd], fd);
    }
  }

  lemma {:induction false} HeldIsIn(e: SourceEnd, p: Place, fd: int)
    requires Held(e, fd, p)
    ensures p.handler < |e.handlers| && fd in FdsIn(e.handlers[p.handler])
  {
  }

  /** All handlers in turn. */
  lemma {:induction false} SourceUpdateIsARun(w: World, n: nat, incoming: map<int, seq<Read>>, fds: seq<int>)
    returns (steps: seq<Step>, w': World)
    requires PlacesOk(w.src, w.place) && n <= |w.src.handlers| && n <= |fds| && AcceptsNew(w.src, n, incoming, fds)
    ensures Runs(steps, w, w') && OnlySourceRead(w, w')
    ensures w'.src == AfterUpdates(w.src, n, incoming, fds) && PlacesOk(w'.src, w'.place)
    ensures w'.requests == w.requests + RequestsFor(fds[..n])
    ensures forall id :: EventsOf(w'.data, id) == EventsOf(w.data, id) + PolledUpTo(w.src, n, incoming, id)
    decreases n
  {
    hide Runs, EventsOf, PlacesOk, PolledBy, NewAt, AfterUpdate, PolledUpTo;
    if n == 0 {
      steps, w' := [], w;
      RunsNothing(w);
      PolledUpToNothing(w, incoming);
      assert fds[..0] == [] && w.requests + [] == w.requests;
    } else {
      var w1, more;
      steps, w1 := SourceUpdateIsARun(w, n - 1, incoming, fds);
      more, w' := HandlerUpdateIsARun(w1, n - 1, incoming, fds[n - 1]);
      RunsInTurn(steps, more, w, w1, w');
      steps := steps + more;
      assert fds[..n][..n - 1] == fds[..n - 1];
      assert w'.requests == w.requests + RequestsFor(fds[..n]);
      forall id
        ensures EventsOf(w'.data, id) == EventsOf(w.data, id) + PolledUpTo(w.src, n, incoming, id)
      {
        PlacesRoute(w.src, w.place);
        PolledUpToStep(w.src, n - 1, incoming, id);
        var a, b, c := EventsOf(w.data, id), PolledUpTo(w.src, n - 1, incoming, id), PolledBy(w.src.handlers[n - 1], incoming, id);
        assert (a + b) + c == a + (b + c);
      }
    }
  }

  lemma {:induction false} PolledUpToNothing(w: World, incoming: map<int, seq<Read>>)
    ensures forall id :: EventsOf(w.data, id) == EventsOf(w.data, id) + PolledUpTo(w.src, 0, incoming, id)
  {
    hide EventsOf;
  }

  /** Every socket id is in the handler it is routed to, and no other. */
  ghost predicate Routed(e: SourceEnd) {
    && (forall i, id :: 0 <= i < |e.handlers| && id in e.handlers[i].sockets ==> id in e.routes && e.routes[id] == i)
  }

  lemma {:induction false} PlacesRoute(e: SourceEnd, place: map<int, Place>)
    requires PlacesOk(e, place)
    ensures Routed(e)
  {
    forall i, id | 0 <= i < |e.handlers| && id in e.handlers[i].sockets
      ensures id in e.routes && e.routes[id] == i
    {
      assert SocketPlaced(e, place, i, id, e.handlers[i].sockets[id]);
    }
  }

  lemma {:induction false} PolledUpToStep(e: SourceEnd, i: nat, incoming: map<int, seq<Read>>, id: int)
    requires Routed(e) && i < |e.handlers|
    ensures PolledUpTo(e, i + 1, incoming, id) == PolledUpTo(e, i, incoming, id) + PolledBy(e.handlers[i], incoming, id)
  {
    hide Polled, Ready;
  }

  // ----- a whole round at the destination end -----

  ghost predicate BackGainsOf(w: World, w': World, dst: map<int, int>, incoming: map<int, seq<Read>>, ids: set<int>) {
    forall id :: EventsOf(w'.dstData, id) ==
                 EventsOf(w.dstData, id) + if id in ids && id in dst then Polled(Ready(incoming, dst[id])) else []
  }

  /** The destination sockets `visited` are polled, and those that ended are `gone`. */
  lemma {:induction false} DestinationUpdateIsARun(w: World, incoming: map<int, seq<Read>>, visited: set<int>,
                                                   gone: set<int>)
    returns (steps: seq<Step>, w': World)
    requires gone <= visited <= w.dst.Keys
    requires forall id :: id in visited ==> (id in gone <==> Ends(Ready(incoming, w.dst[id])))
    ensures Runs(steps, w, w') && OnlyDestinationRead(w, w') && w'.dst == w.dst - gone
    ensures BackGainsOf(w, w', w.dst, incoming, visited)
    decreases |visited|
  {
    hide Runs, EventsOf, Polled, Ends, Ready;
    if visited == {} {
      steps, w' := [], w;
      RunsNothing(w);
      forall id
        ensures EventsOf(w.dstData, id) + [] == EventsOf(w.dstData, id)
      {
      }
    } else {
      SomeId(visited);
      var id :| id in visited;
      var w1;
      steps, w1 := DestinationUpdateIsARun(w, incoming, visited - {id}, gone - {id});
      var ready := Ready(incoming, w.dst[id]);
      w' := DestinationPollIsARun(w1, id, ready);
      RunsInTurn(steps, DestinationReads(id, Polled(ready)), w, w1, w');
      steps := steps + DestinationReads(id, Polled(ready));
      BackGainsGrow(w, w1, w', w.dst, incoming, visited, id);
    }
  }

  lemma {:induction false} BackGainsGrow(w: World, w1: World, w': World, dst: map<int, int>,
                                         incoming: map<int, seq<Read>>, ids: set<int>, id: int)
    requires BackGainsOf(w, w1, dst, incoming, ids - {id}) && id in ids && id in dst
    requires EventsOf(w'.dstData, id) == EventsOf(w1.dstData, id) + Polled(Ready(incoming, dst[id]))
    requires forall other :: other != id ==> EventsOf(w'.dstData, other) == EventsOf(w1.dstData, other)
    ensures BackGainsOf(w, w', dst, incoming, ids)
  {
    hide EventsOf, Polled, Ready;
    assert EventsOf(w.dstData, id) + [] == EventsOf(w.dstData, id);
  }

  // ----- a round and a packet, as the handlers report them -----

  /** From any world with this source end, the round is a run: the same sockets are left, the
      same requests come out, and for each socket id the same data. */
  ghost predicate SourceRound(e: SourceEnd, e': SourceEnd, requests: seq<Message>, data: seq<Message>) {
    forall w: World :: w.src == e && PlacesOk(w.src, w.place) && w.requests == [] && w.data == [] ==>
                         SourceRoundFrom(w, e', requests, data)
  }

  ghost predicate SourceRoundFrom(w: World, e': SourceEnd, requests: seq<Message>, data: seq<Message>) {
    exists steps, w' :: Runs(steps, w, w') && SourceRoundTo(w, w', e', requests, data)
  }

  ghost predicate SourceRoundTo(w: World, w': World, e': SourceEnd, requests: seq<Message>, data: seq<Message>) {
    && OnlySourceRead(w, w') && w'.src == e' && PlacesOk(w'.src, w'.place) && w'.requests == requests
    && forall id :: EventsOf(w'.data, id) == EventsOf(data, id)
  }

  ghost predicate DestinationRound(dst: map<int, int>, dst': map<int, int>, back: seq<Message>) {
    forall w: World :: w.dst == dst && w.dstData == [] ==> DestinationRoundFrom(w, dst', back)
  }

  ghost predicate DestinationRoundFrom(w: World, dst': map<int, int>, back: seq<Message>) {
    exists steps, w' :: Runs(steps, w, w') && DestinationRoundTo(w, w', dst', back)
  }

  ghost predicate DestinationRoundTo(w: World, w': World, dst': map<int, int>, back: seq<Message>) {
    OnlyDestinationRead(w, w') && w'.dst == dst' && forall id :: EventsOf(w'.dstData, id) == EventsOf(back, id)
  }

  lemma {:induction false} SourceRounds(e: SourceEnd, incoming: map<int, seq<Read>>, fds: seq<int>,
                                        requests: seq<Message>, data: seq<Message>)
    requires |fds| == |e.handlers| && AcceptsNew(e, |fds|, incoming, fds) && requests == RequestsFor(fds)
    requires forall id :: EventsOf(data, id) == PolledUpTo(e, |fds|, incoming, id)
    ensures SourceRound(e, AfterUpdates(e, |fds|, incoming, fds), requests, data)
  {
    hide Runs, EventsOf, PlacesOk, PolledUpTo, AcceptsNew, AfterUpdates;
    forall w: World | w.src == e && PlacesOk(w.src, w.place) && w.requests == [] && w.data == []
      ensures SourceRoundFrom(w, AfterUpdates(e, |fds|, incoming, fds), requests, data)
    {
      var steps, w' := SourceUpdateIsARun(w, |fds|, incoming, fds);
      assert fds[..|fds|] == fds && [] + requests == requests;
      forall id
        ensures EventsOf(w'.data, id) == EventsOf(data, id)
      {
        NoEvents(id);
      }
    }
  }

  lemma {:induction false} NoEvents(id: int)
    ensures EventsOf([], id) == [] && forall events: seq<Event> :: [] + events == events
  {
  }

  lemma {:induction false} DestinationRounds(dst: map<int, int>, incoming: map<int, seq<Read>>, visited: set<int>,
                                             gone: set<int>, back: seq<Message>)
    requires gone <= visited <= dst.Keys
    requires forall id :: id in visited ==> (id in gone <==> Ends(Ready(incoming, dst[id])))
    requires forall id :: EventsOf(back, id) == if id in visited then Polled(Ready(incoming, dst[id])) else []
    ensures DestinationRound(dst, dst - gone, back)
  {
    hide Runs, EventsOf, Polled, Ends, Ready;
    forall w: World | w.dst == dst && w.dstData == []
      ensures DestinationRoundFrom(w, dst - gone, back)
    {
      var steps, w' := DestinationUpdateIsARun(w, incoming, visited, gone);
      forall id
        ensures EventsOf(w'.dstData, id) == EventsOf(back, id)
      {
        NoEvents(id);
      }
    }
  }

  /** Handling the packet at the source end is the step of the model. */
  ghost predicate IsSourceStep(m: Message, e: SourceEnd, e': SourceEnd) {
    forall w: World :: Can(w, HandlesAtSource) && w.src == e && w.toSrc[0] == m ==> Next(w, HandlesAtSource).src == e'
  }

  /** Handling the packet at the destination end, which connects and draws, is the step. */
  ghost predicate IsDestinationStep(m: Message, dst: map<int, int>, dst': map<int, int>, open: set<int>,
                                    connected: Option<int>, drawn: Option<int>, reply: Option<Message>)
  {
    forall w: World :: w.dst == dst && w.dstOpen <= open && w.dstData == [] && w.toDst != [] && w.toDst[0] == m ==>
                         DestinationStepTo(w, HandlesAtDestination(connected, drawn), dst', reply)
  }

  ghost predicate DestinationStepTo(w: World, step: Step, dst': map<int, int>, reply: Option<Message>) {
    && Can(w, step) && Next(w, step).dst == dst'
    && Next(w, step).toSrc == w.toSrc + if reply.Some? then [reply.value] else []
  }

  lemma {:induction false} PacketIsASourceStep(m: Message, e: SourceEnd)
    requires !m.Request?
    ensures IsSourceStep(m, e, match m
                               case Response(fd, None) => CloseSourceFd(e, fd)
                               case Response(fd, Some(id)) => AddSourceSocketId(e, id, fd)
                               case Data(id, event) => if event.Chunk? then e else CloseSourceSocketId(e, id))
  {
    hide CloseSourceFd, AddSourceSocketId, CloseSourceSocketId, Next, WaitingFor, Live, FdOf, Longer;
    forall w: World | Can(w, HandlesAtSource) && w.src == e && w.toSrc[0] == m
      ensures Next(w, HandlesAtSource).src == match m
                                              case Response(fd, None) => CloseSourceFd(e, fd)
                                              case Response(fd, Some(id)) => AddSourceSocketId(e, id, fd)
                                              case Data(id, event) => if event.Chunk? then e else CloseSourceSocketId(e, id)
    {
      match m
      case Response(_, None) => ErrorEffect(w);
      case Response(_, Some(_)) => MapEffect(w);
      case Data(_, _) => SourceDataEffect(w);
    }
  }

  lemma {:induction false} RequestIsADestinationStep(fd: int, dst: map<int, int>, open: set<int>,
                                                     connected: Option<int>, drawn: Option<int>)
    requires connected.Some? ==> connected.value >= 0 && connected.value !in open
    requires drawn.Some? ==> drawn.value !in dst
    ensures var opens := connected.Some? && drawn.Some?;
            IsDestinationStep(Request(fd), dst, if opens then dst[drawn.value := connected.value] else dst, open,
                              connected, drawn, Some(Response(fd, if opens then drawn else None)))
  {
    hide Forget;
  }

  lemma {:induction false} DataIsADestinationStep(id: int, event: Event, dst: map<int, int>, open: set<int>)
    ensures IsDestinationStep(Data(id, event), dst, if event.Chunk? then dst else dst - {id}, open, None, None, None)
  {
    hide Longer;
    forall w: World | w.dst == dst && w.dstOpen <= open && w.dstData == [] && w.toDst != [] && w.toDst[0] == Data(id, event)
      ensures DestinationStepTo(w, HandlesAtDestination(None, None), if event.Chunk? then dst else dst - {id}, None)
    {
      if id !in dst {
        assert dst - {id} == dst;
      }
      assert w.toSrc + [] == w.toSrc;
    }
  }
}
