/** The handlers of port forwarding, changed in place, proved against the functions of
    Forwarding (src/terminal/forwarding/). */
module PortForward {
  import opened Wire
  import opened Forwarding
  import opened ForwardSockets

  /** The sockets that stay after a poll of them all. */
  function AfterPoll(h: Source, incoming: map<int, seq<Read>>): Source {
    h.(sockets := map id | id in h.sockets && !Ends(Ready(incoming, h.sockets[id])) :: h.sockets[id])
  }

  /** The first accepted fd, if any. */
  function FirstNew(offers: seq<int>, open: set<int>): int {
    if offers == [] then -1
    else if NewFd(offers[0], open) != -1 then NewFd(offers[0], open)
    else FirstNew(offers[1..], open)
  }

  /** -1 if none of the offers can be used, else the first that can. */
  ghost predicate IsFirstUsable(fd: int, offers: seq<int>, open: set<int>) {
    if fd == -1 then forall i :: 0 <= i < |offers| ==> !Usable(offers[i], open)
    else exists i :: 0 <= i < |offers| && offers[i] == fd && Usable(fd, open) &&
                     forall j :: 0 <= j < i ==> !Usable(offers[j], open)
  }

  lemma {:induction false} FirstNewIs(offers: seq<int>, open: set<int>)
    ensures IsFirstUsable(FirstNew(offers, open), offers, open)
  {
    if offers != [] && !Usable(offers[0], open) {
      FirstNewIs(offers[1..], open);
      var fd := FirstNew(offers[1..], open);
      if fd != -1 {
        var i :| 0 <= i < |offers[1..]| && offers[1..][i] == fd && Usable(fd, open) &&
                 forall j :: 0 <= j < i ==> !Usable(offers[1..][j], open);
        assert offers[i + 1] == fd;
        forall j | 0 <= j < i + 1
          ensures !Usable(offers[j], open)
        {
          assert j > 0 ==> offers[j] == offers[1..][j - 1];
        }
      } else {
        forall i | 0 <= i < |offers|
          ensures !Usable(offers[i], open)
        {
          assert i > 0 ==> offers[i] == offers[1..][i - 1];
        }
      }
    } else if offers != [] {
      assert offers[0] == FirstNew(offers, open);
    }
  }

  ghost function FdsAt(sockets: map<int, int>, ids: set<int>): set<int> {
    set id | id in ids && id in sockets :: sockets[id]
  }

  ghost function FdsIn(h: Source): set<int> {
    h.unassigned + FdsAt(h.sockets, h.sockets.Keys)
  }

  ghost predicate Injective(sockets: map<int, int>) {
    forall a, b :: a in sockets && b in sockets && sockets[a] == sockets[b] ==> a == b
  }

  /** Every fd is held once, and is open. */
  ghost predicate SourceValid(h: Source, open: set<int>) {
    && h.unassigned !! FdsAt(h.sockets, h.sockets.Keys)
    && Injective(h.sockets)
    && FdsIn(h) <= open
  }

  /** The sockets in `done` have been read once each: what each had ready is in the data and no
      longer ready, and those that ended are in `gone`. */
  ghost predicate PolledSo(sockets: map<int, int>, done: set<int>, gone: set<int>,
                           incoming: map<int, seq<Read>>, incoming': map<int, seq<Read>>,
                           data: seq<Message>, data': seq<Message>)
  {
    && gone <= done <= sockets.Keys
    && (forall id :: id in done ==> (id in gone <==> Ends(Ready(incoming, sockets[id]))))
    && (forall id :: EventsOf(data', id) == EventsOf(data, id) +
                     if id in done then Polled(Ready(incoming, sockets[id])) else [])
    && Asked(data') == Asked(data)
    && TakenOff(FdsAt(sockets, done), incoming, incoming')
  }

  lemma {:induction false} NothingPolledYet(sockets: map<int, int>, incoming: map<int, seq<Read>>, data: seq<Message>)
    ensures PolledSo(sockets, {}, {}, incoming, incoming, data, data)
    ensures FdsAt(sockets, {}) == {}
  {
  }

  lemma {:induction false} ReadyOutside(fds: set<int>, incoming: map<int, seq<Read>>, incoming': map<int, seq<Read>>, fd: int)
    requires TakenOff(fds, incoming, incoming') && fd !in fds
    ensures Ready(incoming', fd) == Ready(incoming, fd)
  {
  }

  lemma {:induction false} PolledOneMore(sockets: map<int, int>, done: set<int>, gone: set<int>,
                                         incoming: map<int, seq<Read>>, before: map<int, seq<Read>>,
                                         after: map<int, seq<Read>>, data: seq<Message>, data0: seq<Message>,
                                         data': seq<Message>, id: int, ended: bool)
    requires PolledSo(sockets, done, gone, incoming, before, data, data0)
    requires Injective(sockets) && id in sockets && id !in done
    requires ended <==> Ends(Ready(before, sockets[id]))
    requires EventsOf(data', id) == EventsOf(data0, id) + Polled(Ready(before, sockets[id]))
    requires forall other :: other != id ==> EventsOf(data', other) == EventsOf(data0, other)
    requires Asked(data') == Asked(data0)
    requires TakenOff({sockets[id]}, before, after)
    ensures PolledSo(sockets, done + {id}, if ended then gone + {id} else gone, incoming, after, data, data')
  {
    hide EventsOf, Asked, Polled, Ends, Ready, Injective, TakenOff;
    NotAmong(sockets, done, id);
    TakenOffInTurn(FdsAt(sockets, done), {sockets[id]}, incoming, before, after);
    ReadyOutside(FdsAt(sockets, done), incoming, before, sockets[id]);
    forall other
      ensures EventsOf(data', other) == EventsOf(data, other) +
              if other in done + {id} then Polled(Ready(incoming, sockets[other])) else []
    {
      assert EventsOf(data0, id) + [] == EventsOf(data0, id);
    }
  }

  class ForwardSourceHandler {
    const socketHandler: SocketHandler
    var unassignedFds: set<int>
    var socketFdMap: map<int, int>

    ghost function State(): Source
      reads this
    {
      Source(unassignedFds, socketFdMap)
    }

    ghost function Fds(): set<int>
      reads this
    {
      FdsIn(State())
    }

    /** Every fd is held once, and is open. */
    ghost predicate Valid()
      reads this, socketHandler
    {
      SourceValid(State(), socketHandler.open)
    }

    constructor (socketHandler: SocketHandler)
      ensures Valid() && this.socketHandler == socketHandler && State() == Source({}, map[])
    {
      this.socketHandler := socketHandler;
      unassignedFds, socketFdMap := {}, map[];
    }

    method Listen(offers: seq<int>) returns (fd: int)
      requires Valid()
      modifies this`unassignedFds, socketHandler`open
      ensures Valid()
      ensures IsFirstUsable(fd, offers, old(socketHandler.open))
      ensures fd == -1 ==> State() == old(State()) && socketHandler.open == old(socketHandler.open)
      ensures fd != -1 ==> fd >= 0 && fd !in old(socketHandler.open)
      ensures fd != -1 ==> socketHandler.open == old(socketHandler.open) + {fd}
      ensures fd != -1 ==> State() == old(State()).(unassigned := old(unassignedFds) + {fd})
    {
      FirstNewIs(offers, socketHandler.open);
      var i := 0;
      while i < |offers|
        invariant 0 <= i <= |offers|
        invariant FirstNew(offers, old(socketHandler.open)) == FirstNew(offers[i..], old(socketHandler.open))
        invariant State() == old(State()) && socketHandler.open == old(socketHandler.open)
      {
        fd := socketHandler.Obtain(offers[i]);
        if fd > -1 {
          unassignedFds := unassignedFds + {fd};
          return;
        }
        i := i + 1;
      }
      fd := -1;
    }

    /** Reads all sockets into `data'`; those that ended are closed. */
    method PollAll(data: seq<Message>) returns (data': seq<Message>, socketsToRemove: set<int>)
      requires Valid()
      modifies socketHandler
      ensures PolledSo(socketFdMap, socketFdMap.Keys, socketsToRemove, old(socketHandler.incoming),
                       socketHandler.incoming, data, data')
      ensures socketHandler.open == old(socketHandler.open) - FdsAt(socketFdMap, socketsToRemove)
    {
      hide PolledSo, EventsOf, Asked, Polled, Ends, FdsAt, Ready, Injective, TakenOff;
      ghost var incoming, done := socketHandler.incoming, {};
      data' := data;
      socketsToRemove := {};
      NothingPolledYet(socketFdMap, incoming, data);
      var remaining := socketFdMap.Keys;
      while remaining != {}
        invariant remaining <= socketFdMap.Keys && done == socketFdMap.Keys - remaining && socketsToRemove <= done
        invariant PolledSo(socketFdMap, done, socketsToRemove, incoming, socketHandler.incoming, data, data')
        invariant socketHandler.open == old(socketHandler.open) - FdsAt(socketFdMap, socketsToRemove)
        decreases |remaining|
      {
        SomeId(remaining);
        var socketId :| socketId in remaining;
        var fd := socketFdMap[socketId];
        NotAmong(socketFdMap, done, socketId);
        NotAmong(socketFdMap, socketsToRemove, socketId);
        ghost var before, data0 := socketHandler.incoming, data';
        var ended;
        data', ended := Poll(socketHandler, fd, socketId, data');
        PolledOneMore(socketFdMap, done, socketsToRemove, incoming, before, socketHandler.incoming, data, data0, data',
                      socketId, ended);
        remaining := remaining - {socketId};
        done := done + {socketId};
        if ended {
          socketsToRemove := socketsToRemove + {socketId};
        }
      }
      assert done == socketFdMap.Keys;
    }

    /** Reads all sockets; those that ended are closed and dropped. */
    method Update(data: seq<Message>) returns (data': seq<Message>)
      requires Valid()
      modifies this`socketFdMap, socketHandler
      ensures Valid()
      ensures State() == AfterPoll(old(State()), old(socketHandler.incoming))
      ensures Fds() <= old(Fds()) && socketHandler.open == old(socketHandler.open) - (old(Fds()) - Fds())
      ensures forall id :: EventsOf(data', id) == EventsOf(data, id) +
                if id in old(socketFdMap) then Polled(Ready(old(socketHandler.incoming), old(socketFdMap)[id])) else []
      ensures Asked(data') == Asked(data)
      ensures TakenOff(FdsAt(old(socketFdMap), old(socketFdMap).Keys), old(socketHandler.incoming), socketHandler.incoming)
    {
      hide EventsOf, Asked, Polled, Ends, Ready, FdsAt, TakenOff;
      var socketsToRemove;
      data', socketsToRemove := PollAll(data);
      FdsGone(socketFdMap, socketsToRemove);
      StillInjective(socketFdMap, socketsToRemove);
      socketFdMap := socketFdMap - socketsToRemove;
      var was, incoming := old(State()), old(socketHandler.incoming);
      forall id
        ensures id in socketFdMap <==> id in AfterPoll(was, incoming).sockets
      {
      }
      assert socketFdMap == AfterPoll(was, incoming).sockets;
    }

    predicate HasUnassignedFd(fd: int)
      reads this
    {
      fd in unassignedFds
    }

    method CloseUnassignedFd(fd: int)
      requires Valid()
      modifies this`unassignedFds, socketHandler`open
      ensures Valid()
      ensures State() == CloseUnassigned(old(State()), fd)
      ensures Fds() <= old(Fds()) && socketHandler.open == old(socketHandler.open) - (old(Fds()) - Fds())
    {
      hide FdsAt, Injective;
      if fd !in unassignedFds {
        return;
      }
      socketHandler.Close(fd);
      unassignedFds := unassignedFds - {fd};
    }

    /** A socket id that was mapped before loses its fd, which stays open. */
    method AddSocket(socketId: int, sourceFd: int)
      requires Valid()
      modifies this`unassignedFds, this`socketFdMap
      ensures Valid()
      ensures State() == Forwarding.AddSocket(old(State()), socketId, sourceFd)
      ensures Fds() == old(Fds()) - if sourceFd in old(unassignedFds) && socketId in old(socketFdMap)
                                    then {old(socketFdMap)[socketId]} else {}
    {
      hide FdsAt, Injective;
      if sourceFd !in unassignedFds {
        return;
      }
      unassignedFds := unassignedFds - {sourceFd};
      socketFdMap := socketFdMap[socketId := sourceFd];
      FdReplaced(old(socketFdMap), socketId, sourceFd);
    }

    /** Hands `data` to the socket, if it is still there. */
    method SendDataOnSocket(socketId: int, data: Bytes, outcomes: seq<Write>)
      requires Valid()
      modifies socketHandler`outgoing
      ensures socketHandler.outgoing ==
              if socketId in socketFdMap then
                Longer(old(socketHandler.outgoing), socketFdMap[socketId], Chunk(data[..Accepted(outcomes, |data|)]))
              else old(socketHandler.outgoing)
    {
      if socketId !in socketFdMap {
        return;
      }
      var fd := socketFdMap[socketId];
      var written := socketHandler.WriteAllOrReturn(fd, data, outcomes);
    }

    method CloseSocket(socketId: int)
      requires Valid()
      modifies this`socketFdMap, socketHandler`open
      ensures Valid()
      ensures State() == Forwarding.CloseSocket(old(State()), socketId)
      ensures Fds() <= old(Fds()) && socketHandler.open == old(socketHandler.open) - (old(Fds()) - Fds())
    {
      if socketId in socketFdMap {
        OneFdGone(socketFdMap, socketId);
        StillInjective(socketFdMap, {socketId});
        socketHandler.Close(socketFdMap[socketId]);
        socketFdMap := socketFdMap - {socketId};
      } else {
        assert socketFdMap - {socketId} == socketFdMap;
      }
    }
  }

  lemma {:induction false} StillInjective(sockets: map<int, int>, gone: set<int>)
    requires Injective(sockets)
    ensures Injective(sockets - gone)
  {
  }

  lemma {:induction false} FdsGone(sockets: map<int, int>, gone: set<int>)
    requires gone <= sockets.Keys
    requires Injective(sockets)
    ensures FdsAt(sockets - gone, (sockets - gone).Keys) == FdsAt(sockets, sockets.Keys) - FdsAt(sockets, gone)
    ensures FdsAt(sockets, gone) <= FdsAt(sockets, sockets.Keys)
  {
    var left := sockets - gone;
    forall fd
      ensures fd in FdsAt(left, left.Keys) <==> fd in FdsAt(sockets, sockets.Keys) - FdsAt(sockets, gone)
    {
      if fd in FdsAt(left, left.Keys) {
        var id :| id in left && left[id] == fd;
        assert id in sockets && sockets[id] == fd;
      }
      if fd in FdsAt(sockets, sockets.Keys) - FdsAt(sockets, gone) {
        var id :| id in sockets && sockets[id] == fd;
        assert id in left && left[id] == fd;
      }
    }
  }

  lemma {:induction false} NotAmong(sockets: map<int, int>, ids: set<int>, id: int)
    requires id in sockets && id !in ids
    requires Injective(sockets)
    ensures sockets[id] !in FdsAt(sockets, ids) && sockets[id] in FdsAt(sockets, sockets.Keys)
    ensures FdsAt(sockets, ids + {id}) == FdsAt(sockets, ids) + {sockets[id]}
  {
  }

  lemma {:induction false} SomeId(ids: set<int>)
    requires ids != {}
    ensures exists id :: id in ids
  {
    assert (forall id :: id !in ids) ==> ids == {};
  }

  lemma {:induction false} FdAdded(sockets: map<int, int>, id: int, fd: int)
    requires id !in sockets
    ensures FdsAt(sockets[id := fd], sockets[id := fd].Keys) == FdsAt(sockets, sockets.Keys) + {fd}
    ensures Injective(sockets) && fd !in FdsAt(sockets, sockets.Keys) ==> Injective(sockets[id := fd])
  {
    assert sockets[id := fd][id] == fd;
    forall other | other in sockets
      ensures sockets[id := fd][other] == sockets[other] && sockets[other] in FdsAt(sockets, sockets.Keys)
    {
    }
  }

  lemma {:induction false} FdReplaced(sockets: map<int, int>, id: int, fd: int)
    requires Injective(sockets) && fd !in FdsAt(sockets, sockets.Keys)
    ensures Injective(sockets[id := fd])
    ensures FdsAt(sockets[id := fd], sockets[id := fd].Keys) ==
            FdsAt(sockets, sockets.Keys) - (if id in sockets then {sockets[id]} else {}) + {fd}
    ensures id in sockets ==> sockets[id] in FdsAt(sockets, sockets.Keys)
  {
    hide FdsAt, Injective;
    if id in sockets {
      OneFdGone(sockets, id);
      StillInjective(sockets, {id});
      FdAdded(sockets - {id}, id, fd);
      assert (sockets - {id})[id := fd] == sockets[id := fd];
    } else {
      FdAdded(sockets, id, fd);
    }
  }

  lemma {:induction false} OneFdGone(sockets: map<int, int>, id: int)
    requires Injective(sockets) && id in sockets
    ensures FdsAt(sockets - {id}, (sockets - {id}).Keys) == FdsAt(sockets, sockets.Keys) - {sockets[id]}
    ensures sockets[id] in FdsAt(sockets, sockets.Keys)
  {
    FdsGone(sockets, {id});
    assert FdsAt(sockets, {id}) == {sockets[id]};
  }

  /** The end of a forwarded connection at the destination. */
  class ForwardDestinationHandler {
    const socketHandler: SocketHandler
    const socketId: int
    var fd: int

    constructor (socketHandler: SocketHandler, fd: int, socketId: int)
      ensures this.socketHandler == socketHandler && this.fd == fd && this.socketId == socketId
    {
      this.socketHandler, this.fd, this.socketId := socketHandler, fd, socketId;
    }

    /** The handler does not notice: whoever closes it forgets it. */
    method Close()
      requires fd in socketHandler.open
      modifies socketHandler`open
      ensures socketHandler.open == old(socketHandler.open) - {fd}
    {
      socketHandler.Close(fd);
    }

    method WriteData(data: Bytes, outcomes: seq<Write>)
      requires fd in socketHandler.open
      modifies socketHandler`outgoing
      ensures socketHandler.outgoing ==
              Longer(old(socketHandler.outgoing), fd, Chunk(data[..Accepted(outcomes, |data|)]))
    {
      var written := socketHandler.WriteAllOrReturn(fd, data, outcomes);
    }

    method Update(data: seq<Message>) returns (data': seq<Message>)
      requires fd != -1 ==> fd in socketHandler.open
      modifies this, socketHandler
      ensures old(fd) == -1 ==> fd == -1 && data' == data && socketHandler.open == old(socketHandler.open)
      ensures old(fd) != -1 ==>
                && fd == (if Ends(old(Ready(socketHandler.incoming, fd))) then -1 else old(fd))
                && socketHandler.open == (if fd == -1 then old(socketHandler.open) - {old(fd)} else old(socketHandler.open))
                && EventsOf(data', socketId) == EventsOf(data, socketId) + Polled(old(Ready(socketHandler.incoming, fd)))
      ensures forall other :: other != socketId ==> EventsOf(data', other) == EventsOf(data, other)
      ensures Asked(data') == Asked(data)
      ensures TakenOff(if old(fd) == -1 then {} else {old(fd)}, old(socketHandler.incoming), socketHandler.incoming)
    {
      hide EventsOf, Asked, Polled, Ends, Ready, Left;
      if fd == -1 {
        return data;
      }
      var ended;
      data', ended := Poll(socketHandler, fd, socketId, data);
      if ended {
        fd := -1;
      }
    }
  }
}
