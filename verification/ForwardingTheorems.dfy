/** What port forwarding guarantees in every state any run of the two ends reaches
    (src/terminal/forwarding/PortForwardHandler.cpp). */
module ForwardingTheorems {
  import opened Wire
  import opened Forwarding
  import opened ForwardingProof
  import opened ForwardingDestinations

  lemma {:induction false} StartInv(handlers: nat)
    ensures ForwardInv(Start(handlers))
  {
    var w := Start(handlers);
    assert Outbound(w) == [] && Inbound(w) == [];
    assert WaitingFds(w.place) == {};
    forall id
      ensures ViewOk(ViewOf(w, id))
    {
      assert BytesOf([]) == [];
    }
  }

  lemma {:induction false} StepKeeps(w: World, step: Step)
    requires ForwardInv(w) && Can(w, step) && Careful(w, step)
    ensures ForwardInv(Next(w, step))
  {
    hide Next, ForwardInv, Free;
    match step
    case Accepts(i, fd) => AcceptsKeeps(w, i, fd);
    case ReadsSource(i, id, event) => ReadsSourceKeeps(w, i, id, event);
    case SendsSource => SendsSourceKeeps(w);
    case ReadsDestination(id, event) => ReadsDestinationKeeps(w, id, event);
    case SendsDestination => SendsDestinationKeeps(w);
    case HandlesAtDestination(connected, drawn) =>
      NextAtDestination(w);
      if w.toDst[0].Request? {
        DestinationRequestKeeps(w, connected, drawn);
      } else {
        DestinationDataKeeps(w, connected, drawn);
      }
    case HandlesAtSource =>
      NextAtSource(w);
      match w.toSrc[0]
      case Response(_, None) => SourceErrorKeeps(w);
      case Response(_, Some(_)) => SourceMapsKeeps(w);
      case Data(_, _) => SourceDataKeeps(w);
  }

  /** Responses never travel to the destination end. */
  lemma {:induction false} NextAtDestination(w: World)
    requires ForwardInv(w) && w.toDst != []
    ensures !w.toDst[0].Response?
  {
    hide PlacesOk, OrderOk, ClientsOk, ViewsOk;
    assert w.toDst[0] in Outbound(w);
  }

  /** Requests never travel to the source end, and data comes only for socket ids it has a
      route for: no data arrives before its socket id is mapped. */
  lemma {:induction false} NextAtSource(w: World)
    requires ForwardInv(w) && w.toSrc != []
    ensures !w.toSrc[0].Request?
    ensures w.toSrc[0].Data? ==> w.toSrc[0].id in w.src.routes
  {
    hide PlacesOk, PendingOk, ClientsOk, ViewsOk;
    assert Inbound(w)[0] == w.toSrc[0];
    InboundHead(w.src.routes.Keys, Inbound(w));
  }

  lemma {:induction false} RunKeeps(steps: seq<Step>, w: World, w': World)
    requires ForwardInv(w) && CarefulRun(steps, w, w')
    ensures ForwardInv(w')
    decreases |steps|
  {
    hide ForwardInv, Next, Can, Careful;
    if steps != [] {
      StepKeeps(w, steps[0]);
      RunKeeps(steps[1..], Next(w, steps[0]), w');
    }
  }

  /** The state after a run from the start whose every draw is of a free socket id. */
  ghost predicate Reached(handlers: nat, steps: seq<Step>, w: World) {
    CarefulRun(steps, Start(handlers), w)
  }

  lemma {:induction false} ReachedInv(handlers: nat, steps: seq<Step>, w: World)
    requires Reached(handlers, steps, w)
    ensures ForwardInv(w)
  {
    hide ForwardInv, Start, CarefulRun;
    StartInv(handlers);
    RunKeeps(steps, Start(handlers), w);
  }

  ghost predicate WaitsAt(e: SourceEnd, i: nat, fd: int) {
    i < |e.handlers| && fd in e.handlers[i].unassigned
  }

  ghost predicate WaitsForId(e: SourceEnd, fd: int) {
    exists i :: WaitsAt(e, i, fd)
  }

  /** An accepted fd without a socket id has exactly one request or response in flight, and
      no other fd has any. */
  lemma {:induction false} OneRequestPerWaitingFd(handlers: nat, steps: seq<Step>, w: World, fd: int)
    requires Reached(handlers, steps, w)
    ensures multiset(Asked(Outbound(w)) + Asked(Inbound(w)))[fd] == if WaitsForId(w.src, fd) then 1 else 0
  {
    hide OrderOk, ClientsOk, ViewsOk, Asked, Inbound, Outbound, Reached, Start, CarefulRun;
    ReachedInv(handlers, steps, w);
    assert WaitsForId(w.src, fd) <==> fd in WaitingFds(w.place) by {
      if fd in WaitingFds(w.place) {
        assert Held(w.src, fd, w.place[fd]);
        assert WaitsAt(w.src, w.place[fd].handler, fd);
      }
    }
  }

  /** No destination data arrives before its socket id is mapped. */
  lemma {:induction false} NoDataBeforeMapping(handlers: nat, steps: seq<Step>, w: World)
    requires Reached(handlers, steps, w) && w.toSrc != [] && w.toSrc[0].Data?
    ensures w.toSrc[0].id in w.src.routes
  {
    hide ForwardInv, Reached;
    ReachedInv(handlers, steps, w);
    NextAtSource(w);
  }

  /** What is handed to a socket is a prefix of what was read from its partner, both ways;
      while the socket is open, the rest is in flight. The partner at the source end is the
      fd that asked. */
  lemma {:induction false} BytesArePrefixes(handlers: nat, steps: seq<Step>, w: World, id: int)
    requires Reached(handlers, steps, w)
    ensures At(w.givenToDst, id) <= At(w.readAtSrc, id)
    ensures At(w.givenToSrc, id) <= At(w.readAtDst, id)
    ensures id in w.dst ==> At(w.givenToDst, id) + BytesOf(EventsOf(Outbound(w), id)) == At(w.readAtSrc, id)
    ensures Live(w.src, id) ==> At(w.givenToSrc, id) + BytesOf(EventsOf(Inbound(w), id)) == At(w.readAtDst, id)
    ensures Live(w.src, id) ==> id in w.client && w.client[id] == FdOf(w.src, id)
  {
    hide PlacesOk, PendingOk, OrderOk, Ordered, HasEnd, Live, EventsOf, BytesOf, Inbound, Outbound, Reached, FdOf, At;
    hide Latest, Announcements;
    ReachedInv(handlers, steps, w);
    assert ViewOk(ViewOf(w, id));
    if Live(w.src, id) {
      LatestIsAll(Inbound(w), id);
    }
  }

  /** An end that comes next for an open socket comes after everything read before it. */
  ghost predicate EndsOk(w: World) {
    && (w.toDst != [] && w.toDst[0].Data? && !w.toDst[0].event.Chunk? && w.toDst[0].id in w.dst ==>
          At(w.givenToDst, w.toDst[0].id) == At(w.readAtSrc, w.toDst[0].id))
    && (w.toSrc != [] && w.toSrc[0].Data? && !w.toSrc[0].event.Chunk? && Live(w.src, w.toSrc[0].id) ==>
          At(w.givenToSrc, w.toSrc[0].id) == At(w.readAtDst, w.toSrc[0].id))
  }

  /** What each socket has been handed is a prefix of what its partner was read, and its end
      comes last. */
  ghost predicate StreamsOk(w: World) {
    && (forall id :: At(w.givenToDst, id) <= At(w.readAtSrc, id) && At(w.givenToSrc, id) <= At(w.readAtDst, id))
    && EndsOk(w)
  }

  lemma {:induction false} InvMeansStreamsOk(w: World)
    requires ForwardInv(w)
    ensures StreamsOk(w)
  {
    hide PlacesOk, PendingOk, OrderOk, ClientsOk, EndsOk, Live, BytesOf, Announcements, Latest, EventsOf, At;
    forall id
      ensures At(w.givenToDst, id) <= At(w.readAtSrc, id) && At(w.givenToSrc, id) <= At(w.readAtDst, id)
    {
      assert ViewOk(ViewOf(w, id));
    }
    InvMeansEndsOk(w);
  }

  lemma {:induction false} InvMeansEndsOk(w: World)
    requires ForwardInv(w)
    ensures EndsOk(w)
  {
    hide PlacesOk, PendingOk, OrderOk, ClientsOk, ViewOk, Live, At, BytesOf, Announcements, Latest;
    if w.toDst != [] && w.toDst[0].Data? && !w.toDst[0].event.Chunk? && w.toDst[0].id in w.dst {
      var v := ViewOf(w, w.toDst[0].id);
      assert Outbound(w)[0] == w.toDst[0];
      assert ViewOk(v);
      TakeKeeps(v);
    }
    if w.toSrc != [] && w.toSrc[0].Data? && !w.toSrc[0].event.Chunk? && Live(w.src, w.toSrc[0].id) {
      var v := ViewOf(w, w.toSrc[0].id);
      assert Inbound(w)[0] == w.toSrc[0];
      assert ViewOk(v);
      LiveIsRouted(v);
      InboundHeadIsLatest(w);
      TakeBackKeeps(v);
    }
  }

  /** When the end of a stream arrives for an open socket, everything read before it has been
      handed over. */
  lemma {:induction false} EndComesLast(handlers: nat, steps: seq<Step>, w: World)
    requires Reached(handlers, steps, w)
    ensures EndsOk(w)
  {
    hide ForwardInv, Reached, EndsOk;
    ReachedInv(handlers, steps, w);
    InvMeansEndsOk(w);
  }

  lemma {:induction false} LiveIsRouted(v: View)
    requires ViewOk(v) && v.live
    ensures v.routed && v.announced == 0
  {
  }

  lemma {:induction false} InboundHeadIsLatest(w: World)
    requires w.toSrc != [] && w.toSrc[0].Data? && Announcements(Inbound(w), w.toSrc[0].id) == 0
    ensures Latest(Inbound(w), w.toSrc[0].id) != [] && Latest(Inbound(w), w.toSrc[0].id)[0] == w.toSrc[0].event
  {
    hide EventsOf, Latest, Announcements;
    assert Inbound(w)[0] == w.toSrc[0];
    LatestTaken(Inbound(w), w.toSrc[0].id);
  }

  ghost predicate HasSocket(e: SourceEnd, i: nat, id: int, fd: int) {
    i < |e.handlers| && id in e.handlers[i].sockets && e.handlers[i].sockets[id] == fd
  }

  /** The fds open at the source end are those waiting and those mapped; none is held twice;
      and a live socket id is routed to the handler that holds its fd. */
  lemma {:induction false} FdsAreConserved(handlers: nat, steps: seq<Step>, w: World)
    requires Reached(handlers, steps, w)
    ensures forall fd :: fd in w.place <==> WaitsForId(w.src, fd) || exists i, id :: HasSocket(w.src, i, id, fd)
    ensures forall fd, i, id :: HasSocket(w.src, i, id, fd) ==> !WaitsForId(w.src, fd)
    ensures forall fd, i, j, id1, id2 :: HasSocket(w.src, i, id1, fd) && HasSocket(w.src, j, id2, fd) ==>
              i == j && id1 == id2
    ensures forall fd, i, j :: WaitsAt(w.src, i, fd) && WaitsAt(w.src, j, fd) ==> i == j
    ensures forall fd, i, id :: HasSocket(w.src, i, id, fd) ==> Live(w.src, id) && w.src.routes[id] == i
  {
    hide PendingOk, OrderOk, ClientsOk, ViewsOk, Reached;
    ReachedInv(handlers, steps, w);
    var e, place := w.src, w.place;
    forall fd, i | WaitsAt(e, i, fd)
      ensures fd in place && place[fd] == Waiting(i)
    {
    }
    forall fd, i, id | HasSocket(e, i, id, fd)
      ensures SocketPlaced(e, place, i, id, fd)
    {
    }
    forall fd
      ensures fd in place <==> WaitsForId(e, fd) || exists i, id :: HasSocket(e, i, id, fd)
    {
      if fd in place {
        assert Held(e, fd, place[fd]);
        if place[fd].Mapped? {
          assert HasSocket(e, place[fd].handler, place[fd].id, fd);
        } else {
          assert WaitsAt(e, place[fd].handler, fd);
        }
      }
    }
  }

  // ----- closing -----

  /** The fd a step closes at the source end. */
  function ClosesAtSource(w: World, step: Step): Option<int>
    requires Can(w, step)
  {
    match step
    case ReadsSource(i, id, event) => if event.Chunk? then None else Some(w.src.handlers[i].sockets[id])
    case HandlesAtSource =>
      (match w.toSrc[0]
       case Response(fd, None) => if WaitingFor(w.src.handlers, fd) < |w.src.handlers| then Some(fd) else None
       case Data(id, event) => if !event.Chunk? && Live(w.src, id) then Some(FdOf(w.src, id)) else None
       case _ => None)
    case _ => None
  }

  function ClosesAtDestination(w: World, step: Step): Option<int>
    requires Can(w, step)
  {
    match step
    case ReadsDestination(id, event) => if event.Chunk? then None else Some(w.dst[id])
    case HandlesAtDestination(_, _) =>
      (match w.toDst[0]
       case Data(id, event) => if !event.Chunk? && id in w.dst then Some(w.dst[id]) else None
       case _ => None)
    case _ => None
  }

  /** Whatever a step closes is open before it and not after it: nothing is closed twice. */
  lemma {:induction false} NothingIsClosedTwice(handlers: nat, steps: seq<Step>, w: World, step: Step)
    requires Reached(handlers, steps, w) && Can(w, step)
    ensures var w', fd := Next(w, step), ClosesAtSource(w, step);
            fd.Some? ==> fd.value in w.place && fd.value !in w'.place
    ensures var w', fd := Next(w, step), ClosesAtDestination(w, step);
            fd.Some? ==> fd.value in w.dstOpen && fd.value !in w'.dstOpen
  {
    hide PendingOk, OrderOk, ClientsOk, ViewsOk, Live, WaitingFor, CloseSourceFd, AddSourceSocketId;
    hide CloseSourceSocketId, Longer, PlacesOk, Runs, CarefulRun, Leaked, Fds;
    ReachedInv(handlers, steps, w);
    CarefulRunsAreRuns(steps, Start(handlers), w);
    DestinationFdsAreConserved(handlers, steps, w);
    match step
    case ReadsSource(i, id, event) =>
      EndPlaces(w.src, w.place, i, id);
    case HandlesAtSource =>
      match w.toSrc[0] {
        case Response(fd, None) => WaitingIsWaiting(w.src, w.place, fd);
        case Data(id, event) =>
          NextAtSource(w);
          EndRoutePlaces(w.src, w.place, id);
        case _ =>
      }
    case _ =>
  }
}
