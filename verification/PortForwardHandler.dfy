/** PortForwardHandler: routes packets to the source and destination handlers, changed in
    place (src/terminal/forwarding/PortForwardHandler.cpp). */
module PortForwardHandlers {
  import opened Wire
  import opened Forwarding
  import opened ForwardSockets
  import opened ForwardingPolls
  import opened ForwardingProof
  import opened PortForward

  // ----- the invariant, on values -----

  /** Every open fd of the handlers is held once, and live socket ids are routed. */
  ghost predicate EndsValid(e: SourceEnd, dst: map<int, int>, open: set<int>) {
    && (forall i :: 0 <= i < |e.handlers| ==> SourceValid(e.handlers[i], open))
    && (forall i, j :: 0 <= i < j < |e.handlers| ==> FdsIn(e.handlers[i]) !! FdsIn(e.handlers[j]))
    && (forall id :: id in e.routes ==> e.routes[id] < |e.handlers|)
    && (forall i, id :: 0 <= i < |e.handlers| && id in e.handlers[i].sockets ==> id in e.routes && e.routes[id] == i)
    && DestinationsOpen(dst, open)
    && (forall i, id :: 0 <= i < |e.handlers| && id in dst ==> dst[id] !in FdsIn(e.handlers[i]))
  }

  ghost predicate DestinationsOpen(dst: map<int, int>, open: set<int>) {
    && (forall id :: id in dst ==> dst[id] in open && dst[id] >= 0)
    && Injective(dst)
  }

  /** A handler that lets go of fds, which are closed. */
  lemma {:induction false} HandlerShrinks(e: SourceEnd, dst: map<int, int>, open: set<int>, i: nat, h: Source)
    requires EndsValid(e, dst, open) && i < |e.handlers|
    requires FdsIn(h) <= FdsIn(e.handlers[i]) && h.sockets.Keys <= e.handlers[i].sockets.Keys
    requires SourceValid(h, open - (FdsIn(e.handlers[i]) - FdsIn(h)))
    ensures EndsValid(e.(handlers := e.handlers[i := h]), dst, open - (FdsIn(e.handlers[i]) - FdsIn(h)))
  {
    hide FdsIn, Injective;
    forall j | 0 <= j < |e.handlers| && j != i
      ensures SourceValid(e.handlers[j], open - (FdsIn(e.handlers[i]) - FdsIn(h)))
      ensures FdsIn(e.handlers[j]) !! FdsIn(h)
    {
      assert FdsIn(e.handlers[j]) !! FdsIn(e.handlers[i]);
    }
  }

  lemma {:induction false} WaitingGoes(h: Source, open: set<int>, fd: int)
    requires SourceValid(h, open) && fd in h.unassigned
    ensures FdsIn(h) - FdsIn(CloseUnassigned(h, fd)) == {fd}
  {
    hide FdsAt;
  }

  lemma {:induction false} SocketGoes(h: Source, open: set<int>, id: int)
    requires SourceValid(h, open)
    ensures FdsIn(h) - FdsIn(CloseSocket(h, id)) == if id in h.sockets then {h.sockets[id]} else {}
  {
    hide FdsAt, Injective;
    if id in h.sockets {
      OneFdGone(h.sockets, id);
    } else {
      assert h.sockets - {id} == h.sockets;
    }
  }

  lemma {:induction false} HandlerComes(e: SourceEnd, dst: map<int, int>, open: set<int>)
    requires EndsValid(e, dst, open)
    ensures EndsValid(e.(handlers := e.handlers + [Source({}, map[])]), dst, open)
  {
    hide SourceValid, DestinationsOpen;
    var empty: Source := Source({}, map[]);
    assert FdsIn(empty) == {};
    assert SourceValid(empty, open) by {
      EmptyIsValid(open);
    }
  }

  lemma {:induction false} EmptyIsValid(open: set<int>)
    ensures SourceValid(Source({}, map[]), open)
  {
  }

  /** A handler other than the one waiting for the fd has the socket id already. */
  ghost predicate MappedElsewhere(e: SourceEnd, id: int, fd: int) {
    && WaitingFor(e.handlers, fd) < |e.handlers|
    && exists j :: 0 <= j < |e.handlers| && j != WaitingFor(e.handlers, fd) && id in e.handlers[j].sockets
  }

  /** A waiting fd gets the socket id `id`: the routes stay right if and only if no other
      handler has that id. */
  lemma {:induction false} HandlerMaps(e: SourceEnd, dst: map<int, int>, open: set<int>, i: nat, id: int, fd: int)
    requires EndsValid(e, dst, open) && i < |e.handlers| && WaitingFor(e.handlers, fd) == i
    requires FdsIn(AddSocket(e.handlers[i], id, fd)) <= FdsIn(e.handlers[i])
    requires SourceValid(AddSocket(e.handlers[i], id, fd), open)
    ensures EndsValid(SourceEnd(e.handlers[i := AddSocket(e.handlers[i], id, fd)], e.routes[id := i]), dst, open)
            <==> !MappedElsewhere(e, id, fd)
  {
    hide FdsIn, Injective, SourceValid, WaitingFor;
    var e' := SourceEnd(e.handlers[i := AddSocket(e.handlers[i], id, fd)], e.routes[id := i]);
    assert fd in e.handlers[i].unassigned;
    if MappedElsewhere(e, id, fd) {
      var j :| 0 <= j < |e.handlers| && j != i && id in e.handlers[j].sockets;
      assert id in e'.handlers[j].sockets && e'.routes[id] != j;
    } else {
      assert forall j :: 0 <= j < |e.handlers| && j != i ==> id !in e.handlers[j].sockets;
    }
  }

  lemma {:induction false} RouteGoes(e: SourceEnd, dst: map<int, int>, open: set<int>, id: int)
    requires EndsValid(e, dst, open) && forall i :: 0 <= i < |e.handlers| ==> id !in e.handlers[i].sockets
    ensures EndsValid(e.(routes := e.routes - {id}), dst, open)
  {
    hide FdsIn, Injective, SourceValid;
  }

  /** A handler accepts a new fd. */
  lemma {:induction false} HandlerAccepts(e: SourceEnd, dst: map<int, int>, open: set<int>, i: nat, fd: int)
    requires EndsValid(e, dst, open) && i < |e.handlers| && fd !in open
    requires SourceValid(Accept(e, i, fd).handlers[i], open + {fd})
    ensures EndsValid(Accept(e, i, fd), dst, open + {fd})
  {
    hide Injective;
    var h, h' := e.handlers[i], Accept(e, i, fd).handlers[i];
    assert FdsIn(h') == FdsIn(h) + {fd};
    forall j | 0 <= j < |e.handlers| && j != i
      ensures SourceValid(e.handlers[j], open + {fd}) && FdsIn(e.handlers[j]) !! FdsIn(h')
    {
      assert SourceValid(e.handlers[j], open) && FdsIn(e.handlers[j]) !! FdsIn(h);
    }
  }

  lemma {:induction false} DestinationGoes(e: SourceEnd, dst: map<int, int>, open: set<int>, id: int)
    requires EndsValid(e, dst, open) && id in dst
    ensures EndsValid(e, dst - {id}, open - {dst[id]})
  {
    hide FdsIn;
    forall i | 0 <= i < |e.handlers|
      ensures SourceValid(e.handlers[i], open - {dst[id]})
    {
      assert dst[id] !in FdsIn(e.handlers[i]);
    }
  }

  lemma {:induction false} DestinationComes(e: SourceEnd, dst: map<int, int>, open: set<int>, id: int, fd: int)
    requires EndsValid(e, dst, open) && id !in dst && fd >= 0 && fd !in open
    ensures EndsValid(e, dst[id := fd], open + {fd}) && EndsValid(e, dst, open + {fd})
  {
    hide FdsIn;
    forall i | 0 <= i < |e.handlers|
      ensures SourceValid(e.handlers[i], open + {fd}) && fd !in FdsIn(e.handlers[i])
    {
      assert SourceValid(e.handlers[i], open);
    }
  }

  /** The draws of random socket ids before one that is free, at most a hundred thousand. */
  function DrawnId(draws: int -> int, taken: set<int>, k: nat): Option<int>
    requires k <= 100000
    decreases 100000 - k
  {
    if k == 100000 then None
    else if draws(k) !in taken then Some(draws(k))
    else DrawnId(draws, taken, k + 1)
  }

  // ----- what a round accepts -----

  /** The open fds once a handler's sockets are polled: those that ended are closed. */
  ghost function PolledOpen(open: set<int>, h: Source, incoming: map<int, seq<Read>>): set<int> {
    open - (FdsIn(h) - FdsIn(AfterPoll(h, incoming)))
  }

  function AcceptedFds(fd: int): set<int> {
    if fd == -1 then {} else {fd}
  }

  /** The open fds after the first `n` handlers. */
  ghost function OpenAfter(e: SourceEnd, n: nat, incoming: map<int, seq<Read>>, fds: seq<int>, open: set<int>): set<int>
    requires n <= |e.handlers| && n <= |fds|
  {
    if n == 0 then open
    else PolledOpen(OpenAfter(e, n - 1, incoming, fds, open), e.handlers[n - 1], incoming) + AcceptedFds(fds[n - 1])
  }

  /** The fds that the first `n` handlers read. */
  ghost function SocketFds(e: SourceEnd, n: nat): set<int>
    requires n <= |e.handlers|
  {
    if n == 0 then {} else SocketFds(e, n - 1) + FdsAt(e.handlers[n - 1].sockets, e.handlers[n - 1].sockets.Keys)
  }

  /** Each handler in turn accepts the first of its offers that can be used once it is polled. */
  ghost predicate ListensInTurn(e: SourceEnd, n: nat, incoming: map<int, seq<Read>>, fds: seq<int>,
                                offers: seq<seq<int>>, open: set<int>)
    requires n <= |e.handlers| && n <= |fds|
  {
    n == 0 || (n <= |offers| && ListensInTurn(e, n - 1, incoming, fds, offers, open) &&
               IsFirstUsable(fds[n - 1], offers[n - 1],
                             PolledOpen(OpenAfter(e, n - 1, incoming, fds, open), e.handlers[n - 1], incoming)))
  }

  class PortForwardHandler {
    const socketHandler: SocketHandler
    var sourceHandlers: seq<ForwardSourceHandler>
    var socketIdSourceHandlerMap: map<int, nat>
    var destinationHandlers: map<int, ForwardDestinationHandler>

    ghost function Sources(): SourceEnd
      reads this, sourceHandlers
    {
      SourceEnd(seq(|sourceHandlers|, i requires 0 <= i < |sourceHandlers|
                                        reads this, sourceHandlers => sourceHandlers[i].State()),
                socketIdSourceHandlerMap)
    }

    ghost function Destinations(): map<int, int>
      reads this, destinationHandlers.Values
    {
      map id | id in destinationHandlers :: destinationHandlers[id].fd
    }

    /** Each handler is an object of its own, on the same sockets. */
    ghost predicate HandlersApart()
      reads this, sourceHandlers, destinationHandlers.Values
    {
      && (forall i :: 0 <= i < |sourceHandlers| ==> sourceHandlers[i].socketHandler == socketHandler)
      && (forall i, j :: 0 <= i < j < |sourceHandlers| ==> sourceHandlers[i] != sourceHandlers[j])
      && (forall id :: id in destinationHandlers ==>
            destinationHandlers[id].socketHandler == socketHandler && destinationHandlers[id].socketId == id)
    }

    ghost predicate Valid()
      reads this, socketHandler, sourceHandlers, destinationHandlers.Values
    {
      HandlersApart() && EndsValid(Sources(), Destinations(), socketHandler.open)
    }

    constructor (socketHandler: SocketHandler)
      ensures Valid() && fresh(this) && this.socketHandler == socketHandler
      ensures Sources() == SourceEnd([], map[]) && Destinations() == map[]
    {
      this.socketHandler := socketHandler;
      sourceHandlers, socketIdSourceHandlerMap, destinationHandlers := [], map[], map[];
    }

    /** Listens on one more source endpoint. */
    method CreateSource()
      requires Valid()
      modifies this`sourceHandlers
      ensures Valid() && Destinations() == old(Destinations())
      ensures Sources() == old(Sources()).(handlers := old(Sources()).handlers + [Source({}, map[])])
    {
      hide EndsValid, FdsIn, SourceValid;
      ghost var e := Sources();
      HandlerComes(e, Destinations(), socketHandler.open);
      var handler := new ForwardSourceHandler(socketHandler);
      sourceHandlers := sourceHandlers + [handler];
      assert Sources().handlers == e.handlers + [Source({}, map[])];
      assert Destinations() == old(Destinations());
    }

    /** The destination could not be reached: the fd that asked is closed. */
    method CloseSourceFd(fd: int)
      requires Valid()
      modifies sourceHandlers, socketHandler`open
      ensures Valid() && Destinations() == old(Destinations())
      ensures Sources() == Forwarding.CloseSourceFd(old(Sources()), fd)
      ensures socketHandler.open == old(socketHandler.open) -
                if WaitingFor(old(Sources()).handlers, fd) < |old(Sources()).handlers| then {fd} else {}
    {
      hide EndsValid, FdsIn;
      var i := 0;
      while i < |sourceHandlers|
        invariant 0 <= i <= |sourceHandlers|
        invariant forall k :: 0 <= k < i ==> fd !in Sources().handlers[k].unassigned
        invariant Valid() && Sources() == old(Sources()) && Destinations() == old(Destinations())
        invariant socketHandler.open == old(socketHandler.open)
      {
        if sourceHandlers[i].HasUnassignedFd(fd) {
          WaitingIs(Sources().handlers, fd, i);
          HandlerIsValid(Sources(), Destinations(), socketHandler.open, i);
          sourceHandlers[i].CloseUnassignedFd(fd);
          ghost var e, h := old(Sources()), sourceHandlers[i].State();
          WaitingGoes(e.handlers[i], old(socketHandler.open), fd);
          HandlerShrinks(e, Destinations(), old(socketHandler.open), i, h);
          assert Sources().handlers == e.handlers[i := h];
          return;
        }
        i := i + 1;
      }
      WaitingIs(Sources().handlers, fd, i);
    }

    /** The destination answered: the fd that asked gets its socket id. */
    method AddSourceSocketId(socketId: int, sourceFd: int)
      requires Valid()
      modifies this`socketIdSourceHandlerMap, sourceHandlers
      ensures HandlersApart() && (Valid() <==> !MappedElsewhere(old(Sources()), socketId, sourceFd))
      ensures Destinations() == old(Destinations())
      ensures sourceHandlers == old(sourceHandlers)
      ensures Sources() == Forwarding.AddSourceSocketId(old(Sources()), socketId, sourceFd)
    {
      hide EndsValid, FdsIn;
      var i := 0;
      while i < |sourceHandlers|
        invariant 0 <= i <= |sourceHandlers|
        invariant forall k :: 0 <= k < i ==> sourceFd !in Sources().handlers[k].unassigned
        invariant Valid() && Sources() == old(Sources()) && Destinations() == old(Destinations())
      {
        if sourceHandlers[i].HasUnassignedFd(sourceFd) {
          ghost var e := Sources();
          WaitingIs(e.handlers, sourceFd, i);
          HandlerIsValid(e, Destinations(), socketHandler.open, i);
          sourceHandlers[i].AddSocket(socketId, sourceFd);
          ghost var h := sourceHandlers[i].State();
          HandlerMaps(e, Destinations(), socketHandler.open, i, socketId, sourceFd);
          assert Sources().handlers == e.handlers[i := h];
          socketIdSourceHandlerMap := socketIdSourceHandlerMap[socketId := i];
          assert Sources() == SourceEnd(e.handlers[i := h], e.routes[socketId := i]);
          assert Destinations() == old(Destinations());
          return;
        }
        i := i + 1;
      }
      WaitingIs(Sources().handlers, sourceFd, i);
    }

    /** The destination closed: the socket goes, and so does its route. */
    method CloseSourceSocketId(socketId: int)
      requires Valid()
      modifies this`socketIdSourceHandlerMap, sourceHandlers, socketHandler`open
      ensures Valid() && Destinations() == old(Destinations())
      ensures sourceHandlers == old(sourceHandlers)
      ensures Sources() == Forwarding.CloseSourceSocketId(old(Sources()), socketId)
      ensures socketHandler.open == old(socketHandler.open) -
                if Live(old(Sources()), socketId) then {FdOf(old(Sources()), socketId)} else {}
    {
      hide EndsValid, FdsIn;
      if socketId !in socketIdSourceHandlerMap {
        return;
      }
      var i := socketIdSourceHandlerMap[socketId];
      ghost var e := Sources();
      RouteIsKnown(e, Destinations(), socketHandler.open, socketId);
      HandlerIsValid(e, Destinations(), socketHandler.open, i);
      sourceHandlers[i].CloseSocket(socketId);
      ghost var h := sourceHandlers[i].State();
      SocketGoes(e.handlers[i], old(socketHandler.open), socketId);
      HandlerShrinks(e, Destinations(), old(socketHandler.open), i, h);
      ghost var e' := e.(handlers := e.handlers[i := h]);
      assert Sources().handlers == e'.handlers;
      OnlyItsHandler(e, Destinations(), old(socketHandler.open), socketId);
      RouteGoes(e', Destinations(), socketHandler.open, socketId);
      socketIdSourceHandlerMap := socketIdSourceHandlerMap - {socketId};
      assert Sources() == e'.(routes := e.routes - {socketId});
      assert Destinations() == old(Destinations());
    }

    /** Data for a source socket goes to the handler it is routed to. */
    method SendDataToSourceOnSocket(socketId: int, data: Bytes, outcomes: seq<Write>)
      requires Valid()
      modifies socketHandler`outgoing
      ensures socketHandler.outgoing ==
              if Live(Sources(), socketId) then
                Longer(old(socketHandler.outgoing), FdOf(Sources(), socketId), Chunk(data[..Accepted(outcomes, |data|)]))
              else old(socketHandler.outgoing)
    {
      hide EndsValid, FdsIn, Longer;
      if socketId !in socketIdSourceHandlerMap {
        return;
      }
      var i := socketIdSourceHandlerMap[socketId];
      RouteIsKnown(Sources(), Destinations(), socketHandler.open, socketId);
      HandlerIsValid(Sources(), Destinations(), socketHandler.open, i);
      sourceHandlers[i].SendDataOnSocket(socketId, data, outcomes);
    }

    /** Connects by the two loopback addresses in turn for a port, else by name. */
    method Connect(isTcp: bool, ipv6: int, ipv4: int, pipe: int) returns (fd: int)
      modifies socketHandler`open
      ensures fd == Connected(isTcp, ipv6, ipv4, pipe, old(socketHandler.open))
      ensures ConnectsFirst(fd, isTcp, ipv6, ipv4, pipe, old(socketHandler.open))
      ensures socketHandler.open == if fd == -1 then old(socketHandler.open) else old(socketHandler.open) + {fd}
    {
      if isTcp {
        fd := socketHandler.Obtain(ipv6);
        if fd == -1 {
          fd := socketHandler.Obtain(ipv4);
        }
      } else {
        fd := socketHandler.Obtain(pipe);
      }
    }

    method DrawSocketId(draws: int -> int) returns (socketId: Option<int>)
      ensures socketId == DrawnId(draws, destinationHandlers.Keys, 0)
      ensures IsFirstFree(socketId, draws, destinationHandlers.Keys)
    {
      DrawnIsFirst(draws, destinationHandlers.Keys, 0);
      var id := draws(0);
      var attempts := 0;
      while id in destinationHandlers
        invariant 0 <= attempts < 100000 && id == draws(attempts)
        invariant DrawnId(draws, destinationHandlers.Keys, 0) == DrawnId(draws, destinationHandlers.Keys, attempts)
        decreases 100000 - attempts
      {
        id := draws(attempts + 1);
        attempts := attempts + 1;
        if attempts >= 100000 {
          return None;
        }
      }
      return Some(id);
    }

    /** Answers a request; without a free socket id the fd just connected stays open, unused. */
    method CreateDestination(clientFd: int, isTcp: bool, ipv6: int, ipv4: int, pipe: int, draws: int -> int)
      returns (response: Message)
      requires Valid()
      modifies this`destinationHandlers, socketHandler`open
      ensures Valid() && Sources() == old(Sources())
      ensures exists fd, drawn ::
                && ConnectsFirst(fd, isTcp, ipv6, ipv4, pipe, old(socketHandler.open))
                && IsFirstFree(drawn, draws, old(destinationHandlers.Keys))
                && response == Response(clientFd, if fd == -1 then None else drawn)
                && socketHandler.open == (if fd == -1 then old(socketHandler.open) else old(socketHandler.open) + {fd})
                && Destinations() == if fd == -1 || drawn.None? then old(Destinations())
                                     else old(Destinations())[drawn.value := fd]
      ensures var fd := Connected(isTcp, ipv6, ipv4, pipe, old(socketHandler.open));
              var drawn := DrawnId(draws, old(destinationHandlers.Keys), 0);
              && socketHandler.open == (if fd == -1 then old(socketHandler.open) else old(socketHandler.open) + {fd})
              && if fd == -1 || drawn.None? then
                   response == Response(clientFd, None) && Destinations() == old(Destinations())
                 else
                   && response == Response(clientFd, drawn)
                   && drawn.value !in old(Destinations()) && Destinations() == old(Destinations())[drawn.value := fd]
    {
      hide EndsValid, FdsIn, DrawnId, ConnectsFirst, IsFirstFree, Connected;
      ghost var e, dst, open := Sources(), Destinations(), socketHandler.open;
      DrawnIsFirst(draws, destinationHandlers.Keys, 0);
      var fd := Connect(isTcp, ipv6, ipv4, pipe);
      if fd == -1 {
        return Response(clientFd, None);
      }
      DestinationMayCome(e, dst, open, fd);
      var drawn := DrawSocketId(draws);
      if drawn.None? {
        return Response(clientFd, None);
      }
      var socketId := drawn.value;
      DrawnIsFree(draws, destinationHandlers.Keys, 0);
      DestinationComes(e, dst, open, socketId, fd);
      var handler := new ForwardDestinationHandler(socketHandler, fd, socketId);
      destinationHandlers := destinationHandlers[socketId := handler];
      assert Destinations() == dst[socketId := fd];
      assert Sources() == e;
      return Response(clientFd, Some(socketId));
    }

    /** Polls and listens on one source handler. */
    method UpdateSource(i: nat, offers: seq<int>, data: seq<Message>) returns (fd: int, data': seq<Message>)
      requires Valid() && i < |sourceHandlers|
      modifies sourceHandlers[i], socketHandler
      ensures Valid() && Destinations() == old(Destinations()) && sourceHandlers == old(sourceHandlers)
      ensures Sources() == AfterUpdate(old(Sources()), i, old(socketHandler.incoming), fd)
      ensures NewAt(old(Sources()), i, old(socketHandler.incoming), fd)
      ensures var polled := PolledOpen(old(socketHandler.open), old(Sources()).handlers[i], old(socketHandler.incoming));
              IsFirstUsable(fd, offers, polled) && socketHandler.open == polled + AcceptedFds(fd)
      ensures forall id :: EventsOf(data', id) ==
                EventsOf(data, id) + PolledBy(old(Sources()).handlers[i], old(socketHandler.incoming), id)
      ensures Asked(data') == Asked(data)
      ensures var sockets := old(Sources()).handlers[i].sockets;
              TakenOff(FdsAt(sockets, sockets.Keys), old(socketHandler.incoming), socketHandler.incoming)
    {
      hide EndsValid, FdsIn, EventsOf, Asked, Polled, Ends, Ready, Unheld, TakenOff, FdsAt;
      ghost var e, dst, open := Sources(), Destinations(), socketHandler.open;
      HandlerIsValid(e, dst, open, i);
      data' := sourceHandlers[i].Update(data);
      ghost var h := sourceHandlers[i].State();
      HandlerShrinks(e, dst, open, i, h);
      ghost var e' := e.(handlers := e.handlers[i := h]);
      assert Sources().handlers == e'.handlers;
      fd := sourceHandlers[i].Listen(offers);
      if fd != -1 {
        NewIsUnheld(e', dst, open - (FdsIn(e.handlers[i]) - FdsIn(h)), fd);
        HandlerAccepts(e', dst, open - (FdsIn(e.handlers[i]) - FdsIn(h)), i, fd);
        assert Sources().handlers == Accept(e', i, fd).handlers;
      }
    }

    /** Polls and listens on every source handler; `fds` are what they accepted, -1 for nothing. */
    method UpdateSources(offers: seq<seq<int>>, requests: seq<Message>, data: seq<Message>)
      returns (requests': seq<Message>, data': seq<Message>, ghost fds: seq<int>)
      requires Valid() && |offers| == |sourceHandlers|
      modifies sourceHandlers, socketHandler
      ensures Valid() && Destinations() == old(Destinations()) && sourceHandlers == old(sourceHandlers)
      ensures |fds| == |sourceHandlers| && requests' == requests + RequestsFor(fds)
      ensures Sources() == AfterUpdates(old(Sources()), |fds|, old(socketHandler.incoming), fds)
      ensures AcceptsNew(old(Sources()), |fds|, old(socketHandler.incoming), fds)
      ensures ListensInTurn(old(Sources()), |fds|, old(socketHandler.incoming), fds, offers, old(socketHandler.open))
      ensures socketHandler.open == OpenAfter(old(Sources()), |fds|, old(socketHandler.incoming), fds, old(socketHandler.open))
      ensures forall id :: EventsOf(data', id) ==
                EventsOf(data, id) + PolledUpTo(old(Sources()), |fds|, old(socketHandler.incoming), id)
      ensures Asked(data') == Asked(data)
      ensures TakenOff(SocketFds(old(Sources()), |fds|), old(socketHandler.incoming), socketHandler.incoming)
    {
      hide TakenOff, SocketFds, FdsAt;
      hide EndsValid, EventsOf, Asked, FdsIn, PolledUpTo, AfterUpdate, PolledBy, Ready, AcceptsNew, Unheld;
      hide IsFirstUsable, ListensInTurn, OpenAfter, PolledOpen, AcceptedFds;
      ghost var e, dst, open, incoming := Sources(), Destinations(), socketHandler.open, socketHandler.incoming;
      requests', data', fds := requests, data, [];
      NothingUpTo(e, incoming, fds, offers, open);
      var i := 0;
      while i < |sourceHandlers|
        invariant 0 <= i <= |sourceHandlers| && |fds| == i
        invariant Valid() && sourceHandlers == old(sourceHandlers) && Destinations() == dst
        invariant requests' == requests + RequestsFor(fds)
        invariant Sources() == AfterUpdates(e, i, incoming, fds) && AcceptsNew(e, i, incoming, fds)
        invariant ListensInTurn(e, i, incoming, fds, offers, open) && socketHandler.open == OpenAfter(e, i, incoming, fds, open)
        invariant forall id :: EventsOf(data', id) == EventsOf(data, id) + PolledUpTo(e, i, incoming, id)
        invariant Asked(data') == Asked(data)
        invariant TakenOff(SocketFds(e, i), incoming, socketHandler.incoming)
      {
        ghost var e0, data0, incoming0 := Sources(), data', socketHandler.incoming;
        var fd;
        fd, data' := UpdateSource(i, offers[i], data');
        NotYetRead(e, dst, open, i, incoming, incoming0);
        PolledSame(e, dst, i, incoming, incoming0, e0, fd);
        OneMoreHandler(e, dst, open, i, incoming, data, data0, data');
        OneMoreTakenOff(e, dst, open, i, incoming, incoming0, socketHandler.incoming);
        AfterOneMore(e, i, incoming, fds, fd);
        OneMoreListens(e, i, incoming, fds, fd, offers, open);
        if fd >= 0 {
          requests' := requests' + [Request(fd)];
        }
        fds := fds + [fd];
        i := i + 1;
      }
    }

    /** Polls one destination handler and drops it if it ended. */
    method UpdateDestination(id: int, data: seq<Message>) returns (data': seq<Message>, ended: bool)
      requires Valid() && id in destinationHandlers
      modifies this`destinationHandlers, destinationHandlers[id], socketHandler
      ensures Valid() && Sources() == old(Sources()) && id in old(Destinations())
      ensures destinationHandlers == if ended then old(destinationHandlers) - {id} else old(destinationHandlers)
      ensures Destinations() == if ended then old(Destinations()) - {id} else old(Destinations())
      ensures var fd := old(Destinations())[id];
              && (ended <==> Ends(Ready(old(socketHandler.incoming), fd)))
              && EventsOf(data', id) == EventsOf(data, id) + Polled(Ready(old(socketHandler.incoming), fd))
              && TakenOff({fd}, old(socketHandler.incoming), socketHandler.incoming)
              && socketHandler.open == old(socketHandler.open) - if ended then {fd} else {}
      ensures forall other :: other != id ==> EventsOf(data', other) == EventsOf(data, other)
      ensures Asked(data') == Asked(data)
    {
      hide EndsValid, EventsOf, Asked, Polled, Ends, Ready, FdsIn;
      ghost var e, dst, open := Sources(), Destinations(), socketHandler.open;
      DestinationIsOpen(e, dst, open, id);
      var handler := destinationHandlers[id];
      assert dst[id] == handler.fd;
      assert forall other :: other in destinationHandlers && other != id ==> destinationHandlers[other] != handler;
      data' := handler.Update(data);
      ended := handler.fd == -1;
      if ended {
        destinationHandlers := destinationHandlers - {id};
        DestinationGoes(e, dst, open, id);
        assert Destinations() == dst - {id};
      } else {
        assert Destinations() == dst;
      }
      assert Sources() == e;
    }

    /** Polls destination handlers until one has ended, which is dropped; those not yet visited
        have to wait for the next call. */
    method UpdateDestinations(data: seq<Message>)
      returns (data': seq<Message>, ghost visited: set<int>, ghost gone: set<int>)
      requires Valid()
      modifies this`destinationHandlers, destinationHandlers.Values, socketHandler
      ensures Valid() && Sources() == old(Sources())
      ensures PolledSo(old(Destinations()), visited, gone, old(socketHandler.incoming), socketHandler.incoming,
                       data, data')
      ensures gone == {} ==> visited == old(Destinations().Keys)
      ensures |gone| <= 1 && Destinations() == old(Destinations()) - gone
      ensures socketHandler.open == old(socketHandler.open) - FdsAt(old(Destinations()), gone)
    {
      hide TakenOff, FdsAt;
      hide EventsOf, Asked, Polled, Ends, Ready, FdsIn, PolledSo, EndsValid;
      ghost var dst, incoming := Destinations(), socketHandler.incoming;
      data', visited, gone := data, {}, {};
      NothingPolledYet(dst, incoming, data);
      assert socketHandler.open - {} == socketHandler.open;
      var remaining := destinationHandlers.Keys;
      while remaining != {}
        invariant remaining <= destinationHandlers.Keys && visited == destinationHandlers.Keys - remaining
        invariant destinationHandlers == old(destinationHandlers)
        invariant Valid() && Sources() == old(Sources()) && Destinations() == dst && gone == {}
        invariant socketHandler.open == old(socketHandler.open)
        invariant PolledSo(dst, visited, {}, incoming, socketHandler.incoming, data, data')
        decreases |remaining|
      {
        SomeId(remaining);
        var id :| id in remaining;
        remaining := remaining - {id};
        ghost var before, data0 := socketHandler.incoming, data';
        DestinationIsOpen(Sources(), dst, socketHandler.open, id);
        var ended;
        data', ended := UpdateDestination(id, data');
        PolledOneMore(dst, visited, {}, incoming, before, socketHandler.incoming, data, data0, data', id, ended);
        visited := visited + {id};
        if ended {
          gone := {id};
          assert {} + {id} == gone;
          NotAmong(dst, {}, id);
          return;
        }
      }
    }

    /** One round of polling: new requests, data for the destination end, data for the source end. */
    method Update(offers: seq<seq<int>>)
      returns (requests: seq<Message>, data: seq<Message>, back: seq<Message>,
               ghost fds: seq<int>, ghost visited: set<int>, ghost gone: set<int>)
      requires Valid() && |offers| == |sourceHandlers|
      modifies this`destinationHandlers, destinationHandlers.Values, sourceHandlers, socketHandler
      ensures Valid() && |fds| == |old(sourceHandlers)|
      ensures requests == RequestsFor(fds)
      ensures Sources() == AfterUpdates(old(Sources()), |fds|, old(socketHandler.incoming), fds)
      ensures forall id :: EventsOf(data, id) ==
                           PolledUpTo(old(Sources()), |fds|, old(socketHandler.incoming), id)
      ensures Destinations() == old(Destinations()) - gone
      ensures ListensInTurn(old(Sources()), |fds|, old(socketHandler.incoming), fds, offers, old(socketHandler.open))
      ensures SourceRound(old(Sources()), Sources(), requests, data)
      ensures DestinationRound(old(Destinations()), Destinations(), back)
      ensures gone <= visited <= old(Destinations()).Keys && |gone| <= 1
      ensures gone == {} ==> visited == old(Destinations()).Keys
      ensures forall id :: id in visited ==>
                (id in gone <==> Ends(Ready(old(socketHandler.incoming), old(Destinations())[id])))
      ensures forall id :: EventsOf(back, id) ==
                if id in visited then Polled(Ready(old(socketHandler.incoming), old(Destinations())[id])) else []
      ensures TakenOff(SocketFds(old(Sources()), |fds|) + FdsAt(old(Destinations()), visited),
                       old(socketHandler.incoming), socketHandler.incoming)
      ensures socketHandler.open == OpenAfter(old(Sources()), |fds|, old(socketHandler.incoming), fds, old(socketHandler.open)) -
                                    FdsAt(old(Destinations()), gone)
    {
      hide EndsValid, FdsIn, PolledUpTo, AfterUpdates, AcceptsNew, Polled, Ends, Ready, SourceRound, DestinationRound;
      hide TakenOff, FdsAt, SocketFds, OpenAfter, ListensInTurn;
      ghost var e, dst, open := Sources(), Destinations(), socketHandler.open;
      requests, data, fds := UpdateSources(offers, [], []);
      ghost var middle := socketHandler.incoming;
      back, visited, gone := UpdateDestinations([]);
      NotYetRead(e, dst, open, |fds|, old(socketHandler.incoming), middle);
      PolledDestinations(e, dst, open, |fds|, visited, gone, old(socketHandler.incoming), middle, socketHandler.incoming, back);
      SourceRounds(e, old(socketHandler.incoming), fds, requests, data);
      DestinationRounds(dst, old(socketHandler.incoming), visited, gone, back);
    }

    /** A packet of port data, a request or a response. `toDestination` tells the two kinds of
        data apart; the offers and draws only matter to a request. */
    method HandlePacket(m: Message, toDestination: bool, isTcp: bool, ipv6: int, ipv4: int, pipe: int,
                        draws: int -> int, outcomes: seq<Write>)
      returns (reply: Option<Message>)
      requires Valid()
      modifies this, destinationHandlers.Values, sourceHandlers, socketHandler
      ensures reply.Some? <==> m.Request?
      ensures HandlersApart()
      ensures Valid() <==> !(m.Response? && m.socketId.Some? && MappedElsewhere(old(Sources()), m.socketId.value, m.fd))
      ensures m.Response? || (m.Data? && !toDestination) ==> IsSourceStep(m, old(Sources()), Sources())
      ensures m.Request? ==>
                var fd := Connected(isTcp, ipv6, ipv4, pipe, old(socketHandler.open));
                IsDestinationStep(m, old(Destinations()), Destinations(), old(socketHandler.open),
                                  if fd == -1 then None else Some(fd), DrawnId(draws, old(destinationHandlers.Keys), 0), reply)
      ensures m.Data? && toDestination ==>
                IsDestinationStep(m, old(Destinations()), Destinations(), old(socketHandler.open), None, None, reply)
      ensures m.Request? ==>
                var fd := Connected(isTcp, ipv6, ipv4, pipe, old(socketHandler.open));
                var drawn := DrawnId(draws, old(destinationHandlers.Keys), 0);
                Sources() == old(Sources()) &&
                socketHandler.open == (if fd == -1 then old(socketHandler.open) else old(socketHandler.open) + {fd}) &&
                if fd == -1 || drawn.None? then reply == Some(Response(m.fd, None)) && Destinations() == old(Destinations())
                else
                  && reply == Some(Response(m.fd, drawn)) && drawn.value !in old(Destinations())
                  && Destinations() == old(Destinations())[drawn.value := fd]
      ensures m.Response? ==>
                && Destinations() == old(Destinations())
                && Sources() == if m.socketId.None? then Forwarding.CloseSourceFd(old(Sources()), m.fd)
                                else Forwarding.AddSourceSocketId(old(Sources()), m.socketId.value, m.fd)
      ensures m.Data? && toDestination ==>
                && Sources() == old(Sources())
                && Destinations() == (if m.event.Chunk? then old(Destinations()) else old(Destinations()) - {m.id})
                && socketHandler.outgoing == (if m.event.Chunk? && m.id in old(Destinations()) then
                     Longer(old(socketHandler.outgoing), old(Destinations())[m.id],
                            Chunk(m.event.bytes[..Accepted(outcomes, |m.event.bytes|)]))
                   else old(socketHandler.outgoing))
      ensures m.Data? && !toDestination ==>
                && Destinations() == old(Destinations())
                && Sources() == (if m.event.Chunk? then old(Sources())
                                 else Forwarding.CloseSourceSocketId(old(Sources()), m.id))
                && socketHandler.outgoing == (if m.event.Chunk? && Live(old(Sources()), m.id) then
                     Longer(old(socketHandler.outgoing), FdOf(old(Sources()), m.id),
                            Chunk(m.event.bytes[..Accepted(outcomes, |m.event.bytes|)]))
                   else old(socketHandler.outgoing))
      ensures socketHandler.incoming == old(socketHandler.incoming)
      ensures !m.Data? ==> socketHandler.outgoing == old(socketHandler.outgoing)
      ensures m.Response? ==>
                socketHandler.open == old(socketHandler.open) -
                  if m.socketId.None? && WaitingFor(old(Sources()).handlers, m.fd) < |old(Sources()).handlers| then {m.fd} else {}
      ensures m.Data? ==>
                socketHandler.open == old(socketHandler.open) -
                  if m.event.Chunk? then {}
                  else if toDestination then if m.id in old(Destinations()) then {old(Destinations())[m.id]} else {}
                  else if Live(old(Sources()), m.id) then {FdOf(old(Sources()), m.id)} else {}
    {
      hide EndsValid, FdsIn, Longer, DrawnId, Connected, Live, FdOf, MappedElsewhere, IsSourceStep, IsDestinationStep;
      reply := None;
      ghost var e, dst, open := Sources(), Destinations(), socketHandler.open;
      match m
      case Request(fd) =>
        ghost var connected := Connected(isTcp, ipv6, ipv4, pipe, open);
        DrawnIsFree(draws, destinationHandlers.Keys, 0);
        RequestIsADestinationStep(fd, dst, open, if connected == -1 then None else Some(connected),
                                  DrawnId(draws, destinationHandlers.Keys, 0));
        var response := CreateDestination(fd, isTcp, ipv6, ipv4, pipe, draws);
        reply := Some(response);
      case Response(fd, None) =>
        PacketIsASourceStep(m, e);
        CloseSourceFd(fd);
      case Response(fd, Some(id)) =>
        PacketIsASourceStep(m, e);
        AddSourceSocketId(id, fd);
      case Data(id, event) =>
        if toDestination {
          DataIsADestinationStep(id, event, dst, open);
          HandleDestinationData(id, event, outcomes);
          return;
        }
        PacketIsASourceStep(m, e);
        if event.Chunk? {
          SendDataToSourceOnSocket(id, event.bytes, outcomes);
          assert Sources() == old(Sources()) && Destinations() == old(Destinations());
        } else {
          CloseSourceSocketId(id);
        }
    }

    /** Data for a destination socket; a socket that has closed already gets nothing. */
    method HandleDestinationData(id: int, event: Event, outcomes: seq<Write>)
      requires Valid()
      modifies this`destinationHandlers, destinationHandlers.Values, socketHandler`open, socketHandler`outgoing
      ensures Valid() && Sources() == old(Sources())
      ensures Destinations() == (if event.Chunk? then old(Destinations()) else old(Destinations()) - {id})
      ensures socketHandler.outgoing == (if event.Chunk? && id in old(Destinations()) then
                   Longer(old(socketHandler.outgoing), old(Destinations())[id],
                          Chunk(event.bytes[..Accepted(outcomes, |event.bytes|)]))
                 else old(socketHandler.outgoing))
      ensures socketHandler.open == old(socketHandler.open) -
                if !event.Chunk? && id in old(Destinations()) then {old(Destinations())[id]} else {}
    {
      hide EndsValid, FdsIn, Longer;
      ghost var e, dst, open := Sources(), Destinations(), socketHandler.open;
      if id !in destinationHandlers {
        assert dst - {id} == dst;
        return;
      }
      DestinationIsOpen(e, dst, open, id);
      var handler := destinationHandlers[id];
      assert dst[id] == handler.fd;
      if event.Chunk? {
        handler.WriteData(event.bytes, outcomes);
        assert Sources() == e && Destinations() == dst;
      } else {
        handler.Close();
        destinationHandlers := destinationHandlers - {id};
        DestinationGoes(e, dst, open, id);
        assert Sources() == e && Destinations() == dst - {id};
      }
    }
  }

  /** -1 if no address of its kind can be used: for a port that of IPv6 before that of IPv4, and the
      name otherwise. */
  predicate ConnectsFirst(fd: int, isTcp: bool, ipv6: int, ipv4: int, pipe: int, open: set<int>) {
    if !isTcp then fd == if Usable(pipe, open) then pipe else -1
    else if Usable(ipv6, open) then fd == ipv6
    else fd == if Usable(ipv4, open) then ipv4 else -1
  }

  /** The first of a hundred thousand draws that is not taken, if there is one. */
  ghost predicate IsFirstFree(drawn: Option<int>, draws: int -> int, taken: set<int>) {
    if drawn.None? then forall k :: 0 <= k < 100000 ==> draws(k) in taken
    else exists k :: 0 <= k < 100000 && draws(k) == drawn.value && drawn.value !in taken &&
                     forall j :: 0 <= j < k ==> draws(j) in taken
  }

  lemma {:induction false} DrawnIsFirst(draws: int -> int, taken: set<int>, k: nat)
    requires k <= 100000 && forall j :: 0 <= j < k ==> draws(j) in taken
    ensures IsFirstFree(DrawnId(draws, taken, k), draws, taken)
    decreases 100000 - k
  {
    if k < 100000 && draws(k) in taken {
      DrawnIsFirst(draws, taken, k + 1);
    }
  }

  /** Nothing has been read of the handlers from the `n`-th on, nor of the destinations. */
  ghost predicate SameReadyFrom(e: SourceEnd, dst: map<int, int>, n: nat,
                                incoming: map<int, seq<Read>>, incoming': map<int, seq<Read>>)
  {
    && (forall k, fd :: n <= k < |e.handlers| && fd in FdsIn(e.handlers[k]) ==> Ready(incoming', fd) == Ready(incoming, fd))
    && (forall id :: id in dst ==> Ready(incoming', dst[id]) == Ready(incoming, dst[id]))
  }

  function Connected(isTcp: bool, ipv6: int, ipv4: int, pipe: int, open: set<int>): (fd: int)
    ensures fd == -1 || (fd >= 0 && fd !in open)
  {
    if !isTcp then NewFd(pipe, open)
    else if NewFd(ipv6, open) != -1 then NewFd(ipv6, open)
    else NewFd(ipv4, open)
  }

  lemma {:induction false} DrawnIsFree(draws: int -> int, taken: set<int>, k: nat)
    requires k <= 100000
    ensures DrawnId(draws, taken, k).Some? ==> DrawnId(draws, taken, k).value !in taken
    decreases 100000 - k
  {
    if k < 100000 && draws(k) in taken {
      DrawnIsFree(draws, taken, k + 1);
    }
  }

  lemma {:induction false} NewIsUnheld(e: SourceEnd, dst: map<int, int>, open: set<int>, fd: int)
    requires EndsValid(e, dst, open) && fd !in open
    ensures Unheld(e, fd)
  {
    hide FdsIn;
    forall i | 0 <= i < |e.handlers|
      ensures fd !in FdsIn(e.handlers[i])
    {
      assert SourceValid(e.handlers[i], open);
    }
  }

  lemma {:induction false} NothingUpTo(e: SourceEnd, incoming: map<int, seq<Read>>, fds: seq<int>,
                                       offers: seq<seq<int>>, open: set<int>)
    ensures ListensInTurn(e, 0, incoming, fds, offers, open) && OpenAfter(e, 0, incoming, fds, open) == open
    ensures TakenOff(SocketFds(e, 0), incoming, incoming)
    ensures (forall id :: PolledUpTo(e, 0, incoming, id) == []) && AcceptsNew(e, 0, incoming, fds)
  {
  }

  /** What a handler's poll makes depends only on what its own sockets have ready. */
  lemma {:induction false} PolledSame(e: SourceEnd, dst: map<int, int>, i: nat, incoming: map<int, seq<Read>>,
                                      incoming0: map<int, seq<Read>>, e0: SourceEnd, fd: int)
    requires i < |e.handlers| == |e0.handlers| && e0.handlers[i] == e.handlers[i]
    requires SameReadyFrom(e, dst, i, incoming, incoming0)
    ensures forall id :: PolledBy(e.handlers[i], incoming0, id) == PolledBy(e.handlers[i], incoming, id)
    ensures AfterUpdate(e0, i, incoming0, fd) == AfterUpdate(e0, i, incoming, fd)
    ensures forall open :: PolledOpen(open, e.handlers[i], incoming0) == PolledOpen(open, e.handlers[i], incoming)
    ensures NewAt(e0, i, incoming0, fd) ==> NewAt(e0, i, incoming, fd)
  {
    hide Ready, Ends, Polled, Unheld;
    var h := e.handlers[i];
    forall id | id in h.sockets
      ensures Ready(incoming0, h.sockets[id]) == Ready(incoming, h.sockets[id])
    {
      assert h.sockets[id] in FdsIn(h);
    }
    assert AfterPoll(h, incoming0) == AfterPoll(h, incoming);
  }

  lemma {:induction false} OneMoreHandler(e: SourceEnd, dst: map<int, int>, open: set<int>, i: nat,
                                          incoming: map<int, seq<Read>>, data: seq<Message>, data0: seq<Message>,
                                          data': seq<Message>)
    requires EndsValid(e, dst, open) && i < |e.handlers|
    requires forall id :: EventsOf(data0, id) == EventsOf(data, id) + PolledUpTo(e, i, incoming, id)
    requires forall id :: EventsOf(data', id) == EventsOf(data0, id) + PolledBy(e.handlers[i], incoming, id)
    ensures forall id :: EventsOf(data', id) == EventsOf(data, id) + PolledUpTo(e, i + 1, incoming, id)
  {
    hide EventsOf, PolledUpTo, PolledBy, SourceValid, FdsIn, DestinationsOpen;
    assert Routed(e);
    forall id
      ensures EventsOf(data', id) == EventsOf(data, id) + PolledUpTo(e, i + 1, incoming, id)
    {
      PolledUpToStep(e, i, incoming, id);
      var a, b, c := EventsOf(data, id), PolledUpTo(e, i, incoming, id), PolledBy(e.handlers[i], incoming, id);
      assert (a + b) + c == a + (b + c);
    }
  }

  lemma {:induction false} ReadsApart(e: SourceEnd, dst: map<int, int>, open: set<int>, n: nat)
    requires EndsValid(e, dst, open) && n <= |e.handlers|
    ensures forall k :: n <= k < |e.handlers| ==> SocketFds(e, n) !! FdsIn(e.handlers[k])
    ensures forall id :: id in dst ==> dst[id] !in SocketFds(e, n)
  {
    hide SourceValid, FdsAt, DestinationsOpen;
    if n > 0 {
      ReadsApart(e, dst, open, n - 1);
    }
  }

  /** What the handlers from the `n`-th on and the destinations have ready is not touched by the
      handlers before. */
  lemma {:induction false} NotYetRead(e: SourceEnd, dst: map<int, int>, open: set<int>, n: nat,
                                      incoming: map<int, seq<Read>>, incoming': map<int, seq<Read>>)
    requires EndsValid(e, dst, open) && n <= |e.handlers| && TakenOff(SocketFds(e, n), incoming, incoming')
    ensures SameReadyFrom(e, dst, n, incoming, incoming')
  {
    hide Ready, Left, FdsIn, EndsValid, SocketFds;
    ReadsApart(e, dst, open, n);
  }

  lemma {:induction false} OneMoreTakenOff(e: SourceEnd, dst: map<int, int>, open: set<int>, i: nat,
                                           incoming: map<int, seq<Read>>, incoming0: map<int, seq<Read>>,
                                           incoming': map<int, seq<Read>>)
    requires EndsValid(e, dst, open) && i < |e.handlers| && TakenOff(SocketFds(e, i), incoming, incoming0)
    requires var sockets := e.handlers[i].sockets; TakenOff(FdsAt(sockets, sockets.Keys), incoming0, incoming')
    ensures TakenOff(SocketFds(e, i + 1), incoming, incoming')
  {
    hide TakenOff, EndsValid, FdsAt;
    ReadsApart(e, dst, open, i);
    var sockets := e.handlers[i].sockets;
    assert FdsAt(sockets, sockets.Keys) <= FdsIn(e.handlers[i]);
    TakenOffInTurn(SocketFds(e, i), FdsAt(sockets, sockets.Keys), incoming, incoming0, incoming');
  }

  lemma {:induction false} OneMoreListens(e: SourceEnd, i: nat, incoming: map<int, seq<Read>>, fds: seq<int>, fd: int,
                                          offers: seq<seq<int>>, open: set<int>)
    requires i < |e.handlers| && |fds| == i < |offers| && ListensInTurn(e, i, incoming, fds, offers, open)
    ensures var polled := PolledOpen(OpenAfter(e, i, incoming, fds, open), e.handlers[i], incoming);
            && OpenAfter(e, i + 1, incoming, fds + [fd], open) == polled + AcceptedFds(fd)
            && (IsFirstUsable(fd, offers[i], polled) ==> ListensInTurn(e, i + 1, incoming, fds + [fd], offers, open))
  {
    hide PolledOpen, IsFirstUsable, AcceptedFds;
    assert (fds + [fd])[..i] == fds[..i];
    SameListens(e, i, incoming, fds, fds + [fd], offers, open);
  }

  lemma {:induction false} SameListens(e: SourceEnd, n: nat, incoming: map<int, seq<Read>>, a: seq<int>, b: seq<int>,
                                       offers: seq<seq<int>>, open: set<int>)
    requires n <= |e.handlers| && n <= |a| && n <= |b| && n <= |offers| && a[..n] == b[..n]
    ensures OpenAfter(e, n, incoming, a, open) == OpenAfter(e, n, incoming, b, open)
    ensures ListensInTurn(e, n, incoming, a, offers, open) == ListensInTurn(e, n, incoming, b, offers, open)
  {
    hide PolledOpen, IsFirstUsable, AcceptedFds;
    if n > 0 {
      assert a[n - 1] == a[..n][n - 1] == b[..n][n - 1] == b[n - 1];
      assert a[..n - 1] == a[..n][..n - 1] == b[..n][..n - 1] == b[..n - 1];
      SameListens(e, n - 1, incoming, a, b, offers, open);
    }
  }

  lemma {:induction false} AfterOneMore(e: SourceEnd, i: nat, incoming: map<int, seq<Read>>, fds: seq<int>, fd: int)
    requires i < |e.handlers| && |fds| == i && AcceptsNew(e, i, incoming, fds)
    requires NewAt(AfterUpdates(e, i, incoming, fds), i, incoming, fd)
    ensures AcceptsNew(e, i + 1, incoming, fds + [fd])
    ensures AfterUpdates(e, i + 1, incoming, fds + [fd]) == AfterUpdate(AfterUpdates(e, i, incoming, fds), i, incoming, fd)
    ensures RequestsFor(fds + [fd]) == RequestsFor(fds) + if fd >= 0 then [Request(fd)] else []
  {
    hide NewAt, AfterUpdate;
    assert (fds + [fd])[..i] == fds;
    SameFds(e, i, incoming, fds, fds + [fd]);
  }

  lemma {:induction false} SameFds(e: SourceEnd, n: nat, incoming: map<int, seq<Read>>, a: seq<int>, b: seq<int>)
    requires n <= |e.handlers| && n <= |a| && n <= |b| && a[..n] == b[..n]
    ensures AfterUpdates(e, n, incoming, a) == AfterUpdates(e, n, incoming, b)
    ensures AcceptsNew(e, n, incoming, a) == AcceptsNew(e, n, incoming, b)
  {
    hide NewAt, AfterUpdate;
    if n > 0 {
      assert a[n - 1] == a[..n][n - 1] == b[..n][n - 1] == b[n - 1];
      assert a[..n - 1] == a[..n][..n - 1] == b[..n][..n - 1] == b[..n - 1];
      SameFds(e, n - 1, incoming, a, b);
    }
  }

  lemma {:induction false} DestinationIsOpen(e: SourceEnd, dst: map<int, int>, open: set<int>, id: int)
    requires EndsValid(e, dst, open) && id in dst
    ensures dst[id] in open && dst[id] >= 0 && Injective(dst)
  {
  }

  /** Polling the source handlers first leaves what the destinations have ready. */
  lemma {:induction false} PolledDestinations(e: SourceEnd, dst: map<int, int>, open: set<int>, n: nat, visited: set<int>,
                                              gone: set<int>, incoming: map<int, seq<Read>>, middle: map<int, seq<Read>>,
                                              incoming': map<int, seq<Read>>, back: seq<Message>)
    requires EndsValid(e, dst, open) && n <= |e.handlers| && TakenOff(SocketFds(e, n), incoming, middle)
    requires PolledSo(dst, visited, gone, middle, incoming', [], back) && SameReadyFrom(e, dst, n, incoming, middle)
    ensures TakenOff(SocketFds(e, n) + FdsAt(dst, visited), incoming, incoming')
    ensures gone <= visited <= dst.Keys
    ensures forall id :: id in visited ==> (id in gone <==> Ends(Ready(incoming, dst[id])))
    ensures forall id :: EventsOf(back, id) == if id in visited then Polled(Ready(incoming, dst[id])) else []
  {
    hide Ready, Ends, Polled, EndsValid, TakenOff, SocketFds, FdsIn;
    ReadsApart(e, dst, open, n);
    TakenOffInTurn(SocketFds(e, n), FdsAt(dst, visited), incoming, middle, incoming');
    forall id
      ensures EventsOf(back, id) == if id in visited then Polled(Ready(incoming, dst[id])) else []
    {
      assert EventsOf([], id) == [];
    }
  }

  lemma {:induction false} DestinationMayCome(e: SourceEnd, dst: map<int, int>, open: set<int>, fd: int)
    requires EndsValid(e, dst, open) && fd >= 0 && fd !in open
    ensures EndsValid(e, dst, open + {fd})
  {
    hide FdsIn;
    forall i | 0 <= i < |e.handlers|
      ensures SourceValid(e.handlers[i], open + {fd})
    {
      assert SourceValid(e.handlers[i], open);
    }
  }

  /** A handler waits for a socket id for the fd. */
  predicate Waits(e: SourceEnd, fd: int) {
    exists i :: 0 <= i < |e.handlers| && fd in e.handlers[i].unassigned
  }

  /** But for one fd, the same fds wait. */
  ghost predicate OthersWait(e: SourceEnd, e': SourceEnd, fd: int) {
    |e'.handlers| == |e.handlers| && forall other :: other != fd ==> (Waits(e', other) <==> Waits(e, other))
  }

  /** But for one socket id, the same ids are live, on the same fds. */
  ghost predicate OthersLive(e: SourceEnd, e': SourceEnd, id: int) {
    forall other :: other != id ==> (Live(e', other) <==> Live(e, other)) && (Live(e, other) ==> FdOf(e', other) == FdOf(e, other))
  }

  lemma {:induction false} WaitsIff(e: SourceEnd, fd: int)
    ensures Waits(e, fd) <==> WaitingFor(e.handlers, fd) < |e.handlers|
  {
    var i := WaitingFor(e.handlers, fd);
    if i < |e.handlers| {
      assert fd in e.handlers[i].unassigned;
    }
  }

  lemma {:induction false} SameWait(e: SourceEnd, e': SourceEnd, fd: int)
    requires |e'.handlers| == |e.handlers|
    requires forall k :: 0 <= k < |e.handlers| ==> e'.handlers[k].unassigned - {fd} == e.handlers[k].unassigned - {fd}
    ensures OthersWait(e, e', fd)
  {
    forall other | other != fd
      ensures Waits(e', other) <==> Waits(e, other)
    {
      forall k | 0 <= k < |e.handlers|
        ensures other in e'.handlers[k].unassigned <==> other in e.handlers[k].unassigned
      {
        assert other in e'.handlers[k].unassigned - {fd} <==> other in e.handlers[k].unassigned - {fd};
      }
    }
  }

  /** A response with a socket id: the fd that waits gets it and waits no more. Nothing else waits or
      lives any differently, and if the fd does not wait, nothing changes. */
  lemma {:induction false} MappingIs(e: SourceEnd, dst: map<int, int>, open: set<int>, id: int, fd: int)
    requires EndsValid(e, dst, open)
    ensures var e' := AddSourceSocketId(e, id, fd);
            && OthersWait(e, e', fd) && OthersLive(e, e', id) && !Waits(e', fd)
            && (if Waits(e, fd) then Live(e', id) && FdOf(e', id) == fd else e' == e)
  {
    hide EndsValid, WaitingFor, FdsIn, SourceValid, Waits;
    WaitsIff(e, fd);
    HeldOnce(e, dst, open, fd);
    var e' := AddSourceSocketId(e, id, fd);
    SameWait(e, e', fd);
    NobodyWaits(e', fd);
  }

  /** A response with an error: the fd waits no more, and that is all. */
  lemma {:induction false} RefusalIs(e: SourceEnd, dst: map<int, int>, open: set<int>, id: int, fd: int)
    requires EndsValid(e, dst, open)
    ensures var e' := CloseSourceFd(e, fd);
            && OthersWait(e, e', fd) && !Waits(e', fd)
            && OthersLive(e, e', id) && (Live(e', id) <==> Live(e, id)) && (Live(e, id) ==> FdOf(e', id) == FdOf(e, id))
  {
    hide EndsValid, WaitingFor, FdsIn, SourceValid, Waits;
    WaitsIff(e, fd);
    HeldOnce(e, dst, open, fd);
    var e' := CloseSourceFd(e, fd);
    SameWait(e, e', fd);
    NobodyWaits(e', fd);
  }

  /** The end of a connection at the destination: its socket id is live no more, and that is all. */
  lemma {:induction false} EndIs(e: SourceEnd, dst: map<int, int>, open: set<int>, id: int)
    requires EndsValid(e, dst, open)
    ensures var e' := CloseSourceSocketId(e, id);
            OthersLive(e, e', id) && !Live(e', id) && forall fd :: Waits(e', fd) <==> Waits(e, fd)
  {
    hide EndsValid, FdsIn, SourceValid, Waits;
    RoutesIn(e, dst, open);
    var e' := CloseSourceSocketId(e, id);
    forall fd
      ensures Waits(e', fd) <==> Waits(e, fd)
    {
      SameWait(e, e', fd + 1);
    }
  }

  lemma {:induction false} NobodyWaits(e: SourceEnd, fd: int)
    requires forall i :: 0 <= i < |e.handlers| ==> fd !in e.handlers[i].unassigned
    ensures !Waits(e, fd)
  {
  }

  lemma {:induction false} RoutesIn(e: SourceEnd, dst: map<int, int>, open: set<int>)
    requires EndsValid(e, dst, open)
    ensures forall id :: id in e.routes ==> e.routes[id] < |e.handlers|
  {
    hide SourceValid, FdsIn;
  }

  lemma {:induction false} HeldOnce(e: SourceEnd, dst: map<int, int>, open: set<int>, fd: int)
    requires EndsValid(e, dst, open)
    ensures forall i :: 0 <= i < |e.handlers| && fd in e.handlers[i].unassigned ==> i == WaitingFor(e.handlers, fd)
  {
    hide SourceValid, FdsAt;
    var i := WaitingFor(e.handlers, fd);
    forall k | 0 <= k < |e.handlers| && fd in e.handlers[k].unassigned
      ensures k == i
    {
      assert i <= k && fd in FdsIn(e.handlers[k]) && fd in FdsIn(e.handlers[i]);
    }
  }

  lemma {:induction false} RouteIsKnown(e: SourceEnd, dst: map<int, int>, open: set<int>, id: int)
    requires EndsValid(e, dst, open) && id in e.routes
    ensures e.routes[id] < |e.handlers|
  {
  }

  lemma {:induction false} OnlyItsHandler(e: SourceEnd, dst: map<int, int>, open: set<int>, id: int)
    requires EndsValid(e, dst, open) && id in e.routes
    ensures forall i :: 0 <= i < |e.handlers| && i != e.routes[id] ==> id !in e.handlers[i].sockets
  {
  }

  lemma {:induction false} WaitingIs(handlers: seq<Source>, fd: int, i: nat)
    requires i <= |handlers| && forall k :: 0 <= k < i ==> fd !in handlers[k].unassigned
    ensures i == |handlers| || fd in handlers[i].unassigned ==> WaitingFor(handlers, fd) == i
  {
  }

  lemma {:induction false} HandlerIsValid(e: SourceEnd, dst: map<int, int>, open: set<int>, i: nat)
    requires EndsValid(e, dst, open) && i < |e.handlers|
    ensures SourceValid(e.handlers[i], open)
  {
  }
}
