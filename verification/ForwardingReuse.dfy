/** When drawing a socket id again does harm: the code only draws ids that are not open at the
    destination end (src/terminal/forwarding/PortForwardHandler.cpp). */
module ForwardingReuse {
  import opened Wire
  import opened Forwarding
  import opened ForwardingProof
  import opened ForwardingTheorems

  /** However the run goes on, with careful draws, the streams stay right. */
  ghost predicate Harmless(w: World) {
    forall steps, w' :: CarefulRun(steps, w, w') ==> StreamsOk(w')
  }

  // ----- what the draw leaves -----

  /** After a draw nothing is read or handed over yet under the socket id, which belongs to the
      fd that asked. */
  ghost predicate JustDrawn(w: World, id: int, fd: int) {
    && id in w.dst && w.dstData == [] && Partner(w, id, fd)
    && At(w.readAtSrc, id) == [] && At(w.givenToDst, id) == []
  }

  lemma {:induction false} DrawEffect(w: World, connected: int, id: int)
    requires Can(w, HandlesAtDestination(Some(connected), Some(id))) && w.toDst[0].Request?
    ensures var w' := Next(w, HandlesAtDestination(Some(connected), Some(id)));
            && JustDrawn(w', id, w.toDst[0].fd)
            && w'.src == w.src && w'.requests == w.requests && w'.data == w.data
            && w'.toDst == w.toDst[1..] && w'.toSrc == w.toSrc + [Response(w.toDst[0].fd, Some(id))]
    ensures w.toDst != []
  {
  }

  lemma {:induction false} SameOutbound(w: World, w': World, id: int)
    requires w.toDst != [] && !w.toDst[0].Data?
    requires w'.toDst == w.toDst[1..] && w'.requests == w.requests && w'.data == w.data
    ensures EventsOf(Outbound(w'), id) == EventsOf(Outbound(w), id)
  {
    hide EventsOf, Outbound;
    TakenFromOutbound(w, w');
    MessageTaken(Outbound(w));
    assert [] + EventsOf(Outbound(w'), id) == EventsOf(Outbound(w'), id);
  }

  lemma {:induction false} AskedHas(msgs: seq<Message>, m: Message)
    requires m in msgs && !m.Data?
    ensures m.fd in Asked(msgs)
  {
    if msgs[0] != m {
      AskedHas(msgs[1..], m);
    }
  }

  lemma {:induction false} AskedBefore(msgs: seq<Message>, k: nat)
    requires k < |msgs| && !msgs[k].Data? && multiset(Asked(msgs))[msgs[k].fd] <= 1
    ensures forall j :: 0 <= j < k && !msgs[j].Data? ==> msgs[j].fd != msgs[k].fd
  {
    assert msgs == msgs[..k] + msgs[k..];
    AskedConcat(msgs[..k], msgs[k..]);
    AskedHas(msgs[k..], msgs[k]);
    forall j | 0 <= j < k && !msgs[j].Data?
      ensures msgs[j].fd != msgs[k].fd
    {
      AskedHas(msgs[..k], msgs[j]);
    }
  }

  predicate Waits(e: SourceEnd, fd: int) {
    WaitingFor(e.handlers, fd) < |e.handlers|
  }

  lemma {:induction false} WaitsWhenPlaced(e: SourceEnd, place: map<int, Place>, fd: int)
    requires PlacesOk(e, place) && fd in WaitingFds(place)
    ensures Waits(e, fd)
  {
    assert Held(e, fd, place[fd]);
    var i := WaitingFor(e.handlers, fd);
    assert fd in e.handlers[place[fd].handler].unassigned;
  }

  /** The fd whose request is next waits at the source end, and no response names it; nor do
      two responses name one fd. */
  lemma {:induction false} RequestWaits(w: World)
    requires ForwardInv(w) && w.toDst != [] && w.toDst[0].Request?
    ensures Waits(w.src, w.toDst[0].fd)
    ensures forall m :: m in Inbound(w) && m.Response? ==> m.fd != w.toDst[0].fd && Waits(w.src, m.fd)
    ensures forall fd :: multiset(Asked(Inbound(w)))[fd] <= 1
  {
    hide PlacesOk, OrderOk, ClientsOk, ViewsOk, Asked, Inbound, WaitingFds, Waits;
    var fd, all := w.toDst[0].fd, multiset(Asked(Outbound(w))) + multiset(Asked(Inbound(w)));
    assert Outbound(w)[0] == w.toDst[0];
    AskedHas(Outbound(w), w.toDst[0]);
    assert fd in multiset(Asked(Outbound(w))) && fd in all;
    assert all == multiset(WaitingFds(w.place));
    forall other
      ensures multiset(Asked(Inbound(w)))[other] <= 1
    {
      assert multiset(Asked(Inbound(w)))[other] <= all[other] <= 1;
    }
    WaitsWhenPlaced(w.src, w.place, fd);
    forall m | m in Inbound(w) && m.Response?
      ensures m.fd != fd && Waits(w.src, m.fd)
    {
      AskedHas(Inbound(w), m);
      assert m.fd in multiset(Asked(Inbound(w))) && m.fd in all;
      WaitsWhenPlaced(w.src, w.place, m.fd);
    }
  }

  // ----- runs without a draw -----

  /** Nothing the destination end holds or waits for has changed. */
  predicate SameAtDestination(w: World, w': World) {
    && w'.dst == w.dst && w'.dstData == w.dstData && w'.toDst == w.toDst && w'.client == w.client
    && w'.readAtSrc == w.readAtSrc && w'.givenToDst == w.givenToDst
  }

  lemma {:induction false} NoSteps(w: World)
    ensures CarefulRun([], w, w)
  {
  }

  lemma {:induction false} OneStep(step: Step, w: World)
    requires Can(w, step) && Careful(w, step)
    ensures CarefulRun([step], w, Next(w, step))
  {
    hide Can, Careful, Next;
    NoSteps(Next(w, step));
    CarefulStepFirst(step, [], w, Next(w, step));
    assert [step] + [] == [step];
  }

  /** The source end sends what it has gathered. */
  lemma {:induction false} Sending(w: World) returns (w': World)
    ensures CarefulRun([SendsSource], w, w') && w' == w.(toDst := Outbound(w), requests := [], data := [])
  {
    OneStep(SendsSource, w);
    w' := Next(w, SendsSource);
  }

  /** The destination end takes its next packet, connecting nowhere. */
  lemma {:induction false} TakingEffect(w: World, id: int)
    requires w.toDst != [] && w.dstData == []
    ensures Can(w, HandlesAtDestination(None, None)) && Careful(w, HandlesAtDestination(None, None))
    ensures var w', m := Next(w, HandlesAtDestination(None, None)), w.toDst[0];
            && w'.toDst == w.toDst[1..] && w'.dstData == [] && w'.readAtSrc == w.readAtSrc
            && (!(m.Data? && m.id == id) && id in w.dst ==> id in w'.dst && At(w'.givenToDst, id) == At(w.givenToDst, id))
            && (m.Data? && m.id == id && id in w.dst && m.event.Chunk? ==>
                  At(w'.givenToDst, id) == At(w.givenToDst, id) + m.event.bytes)
  {
    hide Free, At, Longer;
    var w', rest := Next(w, HandlesAtDestination(None, None)), w.(toDst := w.toDst[1..]);
    match w.toDst[0]
    case Request(fd) => assert w' == rest.(toSrc := w'.toSrc);
    case Response(_, _) => assert w' == rest;
    case Data(other, event) =>
      LongerAt(w.givenToDst, other, event);
      if other !in w.dst {
        assert w' == rest;
      } else if event.Chunk? {
        assert w' == rest.(givenToDst := Longer(w.givenToDst, other, event));
      } else {
        assert w' == rest.(dst := w.dst - {other}, dstOpen := w'.dstOpen);
      }
  }

  /** The destination end takes packets until one for this socket id comes next. */
  lemma {:induction false} Draining(w: World, id: int) returns (steps: seq<Step>, w': World)
    requires w.dstData == [] && id in w.dst && EventsOf(w.toDst, id) != []
    ensures CarefulRun(steps, w, w')
    ensures w'.toDst != [] && w'.toDst[0] == Data(id, EventsOf(w.toDst, id)[0])
    ensures id in w'.dst && w'.dstData == [] && w'.readAtSrc == w.readAtSrc
    ensures At(w'.givenToDst, id) == At(w.givenToDst, id)
    decreases |w.toDst|
  {
    hide CarefulRun, Next, Can, Careful, At;
    if w.toDst[0].Data? && w.toDst[0].id == id {
      steps, w' := [], w;
      NoSteps(w);
    } else {
      TakingEffect(w, id);
      var step := HandlesAtDestination(None, None);
      var rest;
      rest, w' := Draining(Next(w, step), id);
      CarefulStepFirst(step, rest, w, w');
      steps := [step] + rest;
    }
  }

  /** A packet that does not answer the fd leaves it waiting. */
  lemma {:induction false} StillWaits(w: World, fd: int)
    requires Can(w, HandlesAtSource) && Waits(w.src, fd) && (w.toSrc[0].Response? ==> w.toSrc[0].fd != fd)
    ensures var w' := Next(w, HandlesAtSource);
            && SameAtDestination(w, w') && w'.requests == [] && w'.data == [] && w'.toSrc == w.toSrc[1..]
            && Waits(w'.src, fd)
  {
    var w' := Next(w, HandlesAtSource);
    HandlingKeepsWaiting(w, fd);
    SameWaiting(w.src.handlers, w'.src.handlers, fd);
  }

  lemma {:induction false} HandlingKeepsWaiting(w: World, fd: int)
    requires Can(w, HandlesAtSource) && (w.toSrc[0].Response? ==> w.toSrc[0].fd != fd)
    ensures var w' := Next(w, HandlesAtSource);
            && SameAtDestination(w, w') && w'.requests == [] && w'.data == [] && w'.toSrc == w.toSrc[1..]
            && WaitsAlike(w.src, w'.src, fd)
  {
    hide HandleAtSource, WaitsAlike, SameAtDestination;
    HandlingLeaves(w, w.toSrc[0]);
    HandlingWaits(w, w.toSrc[0], fd);
  }

  lemma {:induction false} HandlingLeaves(w: World, m: Message)
    requires w.toSrc != []
    ensures var w' := HandleAtSource(w, m);
            SameAtDestination(w, w') && w'.requests == w.requests && w'.data == w.data && w'.toSrc == w.toSrc[1..]
  {
    hide WaitingFor, Longer, CloseSourceFd, AddSourceSocketId, CloseSourceSocketId, Live, FdOf, Partner;
    var w', rest := HandleAtSource(w, m), w.(toSrc := w.toSrc[1..]);
    match m
    case Request(_) => assert w' == rest;
    case Response(_, None) => assert w' == rest.(src := w'.src, place := w'.place);
    case Response(_, Some(_)) => assert w' == rest.(src := w'.src, place := w'.place);
    case Data(id, event) =>
      if !event.Chunk? {
        assert w' == rest.(src := w'.src, place := w'.place);
      } else if Live(w.src, id) && Partner(w, id, FdOf(w.src, id)) {
        assert w' == rest.(givenToSrc := w'.givenToSrc);
      } else {
        assert w' == rest;
      }
  }

  lemma {:induction false} HandlingWaits(w: World, m: Message, fd: int)
    requires w.toSrc != [] && (m.Response? ==> m.fd != fd)
    ensures WaitsAlike(w.src, HandleAtSource(w, m).src, fd)
  {
    hide WaitingFor, Longer, CloseSourceFd, AddSourceSocketId, CloseSourceSocketId, Live, FdOf, Partner, WaitsAlike;
    ClosingKeepsWaiting(w.src, m, fd);
  }

  /** No handler takes up or lets go of the fd. */
  ghost predicate WaitsAlike(e: SourceEnd, e': SourceEnd, fd: int) {
    && |e'.handlers| == |e.handlers|
    && forall i :: 0 <= i < |e.handlers| ==> (fd in e'.handlers[i].unassigned <==> fd in e.handlers[i].unassigned)
  }

  lemma {:induction false} ClosingKeepsWaiting(e: SourceEnd, m: Message, fd: int)
    requires m.Response? ==> m.fd != fd
    ensures m.Response? && m.socketId.None? ==> WaitsAlike(e, CloseSourceFd(e, m.fd), fd)
    ensures m.Response? && m.socketId.Some? ==> WaitsAlike(e, AddSourceSocketId(e, m.socketId.value, m.fd), fd)
    ensures m.Data? ==> WaitsAlike(e, CloseSourceSocketId(e, m.id), fd)
    ensures WaitsAlike(e, e, fd)
  {
    hide WaitingFor;
  }

  lemma {:induction false} SameWaiting(a: seq<Source>, b: seq<Source>, fd: int)
    requires |a| == |b| && forall i :: 0 <= i < |a| ==> (fd in b[i].unassigned <==> fd in a[i].unassigned)
    ensures WaitingFor(a, fd) == WaitingFor(b, fd)
  {
    if a != [] {
      assert fd in b[0].unassigned <==> fd in a[0].unassigned;
      forall i | 0 <= i < |a| - 1
        ensures fd in b[1..][i].unassigned <==> fd in a[1..][i].unassigned
      {
        assert fd in b[i + 1].unassigned <==> fd in a[i + 1].unassigned;
      }
      SameWaiting(a[1..], b[1..], fd);
    }
  }

  /** The source end takes packets up to the response for this fd, which maps it. */
  lemma {:induction false} Mapping(w: World, k: nat, fd: int, id: int) returns (steps: seq<Step>, w': World)
    requires w.requests == [] && w.data == [] && k < |w.toSrc| && w.toSrc[k] == Response(fd, Some(id))
    requires Waits(w.src, fd) && forall j :: 0 <= j < k && w.toSrc[j].Response? ==> w.toSrc[j].fd != fd
    ensures CarefulRun(steps, w, w') && SameAtDestination(w, w') && w'.requests == [] && w'.data == []
    ensures Live(w'.src, id) && FdOf(w'.src, id) == fd
    decreases k
  {
    hide CarefulRun, Next, Waits, Live, FdOf;
    SourceStepIsCareful(w);
    if k == 0 {
      OneStep(HandlesAtSource, w);
      steps, w' := [HandlesAtSource], Next(w, HandlesAtSource);
      MappingEffect(w, fd, id);
    } else {
      StillWaits(w, fd);
      var w1 := Next(w, HandlesAtSource);
      var rest;
      rest, w' := Mapping(w1, k - 1, fd, id);
      CarefulStepFirst(HandlesAtSource, rest, w, w');
      steps := [HandlesAtSource] + rest;
    }
  }

  lemma {:induction false} SourceStepIsCareful(w: World)
    requires w.toSrc != [] && w.requests == [] && w.data == []
    ensures Can(w, HandlesAtSource) && Careful(w, HandlesAtSource)
  {
  }

  lemma {:induction false} MappingEffect(w: World, fd: int, id: int)
    requires Can(w, HandlesAtSource) && w.toSrc[0] == Response(fd, Some(id)) && Waits(w.src, fd)
    ensures var w' := Next(w, HandlesAtSource);
            && SameAtDestination(w, w') && w'.requests == [] && w'.data == []
            && Live(w'.src, id) && FdOf(w'.src, id) == fd
  {
    hide WaitingFor;
  }

  /** The source end reads a byte from the live socket of this id; it counts for the id if the
      socket is the one it was drawn for. */
  lemma {:induction false} Reading(w: World, id: int) returns (steps: seq<Step>, w': World)
    requires Live(w.src, id)
    ensures CarefulRun(steps, w, w') && w'.data == w.data + [Data(id, Chunk([0]))] && w'.requests == w.requests
    ensures w'.dst == w.dst && w'.dstData == w.dstData && w'.toDst == w.toDst && w'.givenToDst == w.givenToDst
    ensures At(w'.readAtSrc, id) == At(w.readAtSrc, id) + if Partner(w, id, FdOf(w.src, id)) then [0] else []
  {
    var step := ReadsSource(w.src.routes[id], id, Chunk([0]));
    OneStep(step, w);
    steps, w' := [step], Next(w, step);
    assert At(w.readAtSrc, id) + [] == At(w.readAtSrc, id);
  }

  // ----- how the streams break -----

  /** Bytes on their way under the id that were not read from its socket get handed over. */
  lemma {:induction false} ChunkBreaks(w: World, id: int) returns (steps: seq<Step>, w': World)
    requires w.dstData == [] && id in w.dst && At(w.readAtSrc, id) == [] && At(w.givenToDst, id) == []
    requires var events := EventsOf(Outbound(w), id);
             events != [] && events[0].Chunk? && events[0].bytes != []
    ensures CarefulRun(steps, w, w') && !StreamsOk(w')
  {
    hide CarefulRun, Next, Can, Careful, Outbound, EventsOf, At, EndsOk;
    var w1 := Sending(w);
    var more, w2 := Draining(w1, id);
    var step := HandlesAtDestination(None, None);
    TakingEffect(w2, id);
    OneStep(step, w2);
    w' := Next(w2, step);
    CarefulRunsInTurn(more, [step], w1, w2, w');
    CarefulRunsInTurn([SendsSource], more + [step], w, w1, w');
    steps := [SendsSource] + (more + [step]);
  }

  /** An end on its way under the id cuts the socket off from what its partner is read. */
  lemma {:induction false} EndBreaks(w: World, id: int, fd: int) returns (steps: seq<Step>, w': World)
    requires JustDrawn(w, id, fd) && w.toSrc != [] && w.toSrc[|w.toSrc| - 1] == Response(fd, Some(id))
    requires Waits(w.src, fd)
    requires forall j :: 0 <= j < |w.toSrc| - 1 && w.toSrc[j].Response? ==> w.toSrc[j].fd != fd
    requires EventsOf(Outbound(w), id) != [] && !EventsOf(Outbound(w), id)[0].Chunk?
    ensures CarefulRun(steps, w, w') && !StreamsOk(w')
  {
    hide CarefulRun, Next, Can, Careful, Outbound, EventsOf, At, Waits, Live, FdOf;
    var w1 := Sending(w);
    var maps, w2 := Mapping(w1, |w.toSrc| - 1, fd, id);
    var read, w3 := Reading(w2, id);
    var more;
    more, w' := Draining(w3, id);
    CarefulRunsInTurn(read, more, w2, w3, w');
    CarefulRunsInTurn(maps, read + more, w1, w2, w');
    CarefulRunsInTurn([SendsSource], maps + (read + more), w, w1, w');
    steps := [SendsSource] + (maps + (read + more));
  }

  /** A byte read from another socket under the id gets handed over. */
  lemma {:induction false} StaleReadBreaks(w: World, id: int) returns (steps: seq<Step>, w': World)
    requires w.dstData == [] && id in w.dst && At(w.readAtSrc, id) == [] && At(w.givenToDst, id) == []
    requires Live(w.src, id) && !Partner(w, id, FdOf(w.src, id)) && EventsOf(Outbound(w), id) == []
    ensures CarefulRun(steps, w, w') && !StreamsOk(w')
  {
    hide CarefulRun, Next, Can, Careful, Outbound, EventsOf, At, Live, FdOf, StreamsOk;
    var read, w1 := Reading(w, id);
    OutboundGrows(w, w1, Data(id, Chunk([0])));
    EventFollows(Outbound(w), id, Chunk([0]));
    var more;
    more, w' := ChunkBreaks(w1, id);
    CarefulRunsInTurn(read, more, w, w1, w');
    steps := read + more;
  }

  lemma {:induction false} OutboundGrows(w: World, w': World, m: Message)
    requires w'.toDst == w.toDst && w'.requests == w.requests && w'.data == w.data + [m]
    ensures Outbound(w') == Outbound(w) + [m]
  {
  }

  lemma {:induction false} EventFollows(msgs: seq<Message>, id: int, event: Event)
    requires EventsOf(msgs, id) == []
    ensures EventsOf(msgs + [Data(id, event)], id) == [event]
  {
    EventsConcat(msgs, [Data(id, event)], id);
    OneMessage(Data(id, event), id);
  }

  /** An earlier announcement of the id maps it to another fd. */
  lemma {:induction false} AnnouncementBreaks(w: World, k: nat, id: int, fd: int, other: int)
    returns (steps: seq<Step>, w': World)
    requires JustDrawn(w, id, fd) && k < |w.toSrc| && w.toSrc[k] == Response(other, Some(id)) && other != fd
    requires Waits(w.src, other) && forall j :: 0 <= j < k && w.toSrc[j].Response? ==> w.toSrc[j].fd != other
    requires EventsOf(Outbound(w), id) == []
    ensures CarefulRun(steps, w, w') && !StreamsOk(w')
  {
    hide CarefulRun, Next, Can, Careful, Outbound, EventsOf, At, Waits, Live, FdOf, StreamsOk;
    var w1 := Sending(w);
    var maps, w2 := Mapping(w1, k, other, id);
    NothingAdded(w, w2);
    var more;
    more, w' := StaleReadBreaks(w2, id);
    CarefulRunsInTurn(maps, more, w1, w2, w');
    CarefulRunsInTurn([SendsSource], maps + more, w, w1, w');
    steps := [SendsSource] + (maps + more);
  }

  lemma {:induction false} NothingAdded(w: World, w': World)
    requires w'.toDst == Outbound(w) && w'.requests == [] && w'.data == []
    ensures Outbound(w') == Outbound(w)
  {
  }

  lemma {:induction false} Announcement(msgs: seq<Message>, id: int) returns (k: nat)
    requires Announcements(msgs, id) > 0
    ensures k < |msgs| && Announces(msgs[k], id)
  {
    if Announces(msgs[0], id) {
      k := 0;
    } else {
      k := Announcement(msgs[1..], id);
      k := k + 1;
    }
  }

  lemma {:induction false} EventIsSent(msgs: seq<Message>, id: int)
    requires EventsOf(msgs, id) != []
    ensures Data(id, EventsOf(msgs, id)[0]) in msgs
  {
    if !(msgs[0].Data? && msgs[0].id == id) {
      EventIsSent(msgs[1..], id);
    }
  }

  /** Drawing a socket id that is not free can break the streams. */
  lemma {:induction false} DrawBreaks(w: World, connected: int, id: int) returns (steps: seq<Step>, w': World)
    requires ForwardInv(w) && Can(w, HandlesAtDestination(Some(connected), Some(id))) && w.toDst[0].Request?
    requires !Free(w, id)
    ensures CarefulRun(steps, Next(w, HandlesAtDestination(Some(connected), Some(id))), w') && !StreamsOk(w')
  {
    hide PlacesOk, OrderOk, ViewsOk, CarefulRun, Next, Can, Outbound, EventsOf, Announcements, Asked, Live, FdOf, Waits;
    hide StreamsOk, WaitingFds, Latest, BytesOf, At;
    NoDataAtDestination(w, connected, id);
    var fd, w1 := w.toDst[0].fd, Next(w, HandlesAtDestination(Some(connected), Some(id)));
    DrawEffect(w, connected, id);
    SameOutbound(w, w1, id);
    RequestWaits(w);
    var events := EventsOf(Outbound(w), id);
    if events != [] {
      EventIsSent(Outbound(w), id);
      if events[0].Chunk? {
        steps, w' := ChunkBreaks(w1, id);
      } else {
        steps, w' := EndBreaks(w1, id, fd);
      }
    } else if Live(w.src, id) {
      LiveIsAnotherFd(w, id, fd);
      steps, w' := StaleReadBreaks(w1, id);
    } else {
      var k := Announcement(Inbound(w), id);
      AskedBefore(Inbound(w), k);
      steps, w' := AnnouncementBreaks(w1, k, id, fd, w.toSrc[k].fd);
    }
  }

  lemma {:induction false} NoDataAtDestination(w: World, connected: int, id: int)
    requires Can(w, HandlesAtDestination(Some(connected), Some(id)))
    ensures w.dstData == [] && Inbound(w) == w.toSrc && w.toDst != []
  {
  }

  /** A live socket is not the one whose request is still on its way. */
  lemma {:induction false} LiveIsAnotherFd(w: World, id: int, fd: int)
    requires PlacesOk(w.src, w.place) && Live(w.src, id) && Waits(w.src, fd)
    ensures FdOf(w.src, id) != fd
  {
    var i := WaitingFor(w.src.handlers, fd);
    assert fd in w.src.handlers[i].unassigned;
    assert SocketPlaced(w.src, w.place, w.src.routes[id], id, FdOf(w.src, id));
  }

  /** In a reachable state a draw does no harm, however the run goes on, if and only if the
      socket id is free: not live at the source end, not announced on the way there, and without
      an event on the way to the destination end. */
  lemma {:induction false} DrawIsHarmlessIff(handlers: nat, steps: seq<Step>, w: World, connected: int, id: int)
    requires Reached(handlers, steps, w)
    requires Can(w, HandlesAtDestination(Some(connected), Some(id))) && w.toDst[0].Request?
    ensures Harmless(Next(w, HandlesAtDestination(Some(connected), Some(id)))) <==> Free(w, id)
  {
    hide Reached, ForwardInv, Next, StreamsOk, Free, CarefulRun;
    ReachedInv(handlers, steps, w);
    var step := HandlesAtDestination(Some(connected), Some(id));
    if Free(w, id) {
      StepKeeps(w, step);
      forall more, w' | CarefulRun(more, Next(w, step), w')
        ensures StreamsOk(w')
      {
        RunKeeps(more, Next(w, step), w');
        InvMeansStreamsOk(w');
      }
    } else {
      var more, w' := DrawBreaks(w, connected, id);
    }
  }

  // ----- an example -----

  /** One source handler, the connections 1 and 2, and socket id 7. */
  function Scene(source: Source, routes: map<int, nat>, place: map<int, Place>, requests: seq<Message>,
                 data: seq<Message>, open: bool, dstData: seq<Message>, toDst: seq<Message>, toSrc: seq<Message>,
                 asked: bool, read: Bytes): World
  {
    World(SourceEnd([source], routes), place, requests, data,
          if open then map[7 := 100] else map[], if open then {100} else {}, dstData, toDst, toSrc,
          if asked then map[7 := 1] else map[], if read == [] then map[] else map[7 := read], map[], map[], map[])
  }

  const MAPPED: Source := Source({}, map[7 := 1])
  const BOTH: Source := Source({2}, map[7 := 1])

  /** Connection 1 is accepted, asked for, opened with socket id 7, and mapped. */
  function Stage(k: nat): World
    requires k <= 4
  {
    var one: map<int, Place> := map[1 := Waiting(0)];
    match k
    case 0 => Start(1)
    case 1 => Scene(Source({1}, map[]), map[], one, [Request(1)], [], false, [], [], [], false, [])
    case 2 => Scene(Source({1}, map[]), map[], one, [], [], false, [], [Request(1)], [], false, [])
    case 3 => Scene(Source({1}, map[]), map[], one, [], [], true, [], [], [Response(1, Some(7))], true, [])
    case 4 => Scene(MAPPED, map[7 := 0], map[1 := Mapped(0, 7)], [], [], true, [], [], [], true, [])
  }

  function StageStep(k: nat): Step
    requires k < 4
  {
    [Accepts(0, 1), SendsSource, HandlesAtDestination(Some(100), Some(7)), HandlesAtSource][k]
  }

  lemma {:induction false} StageFollows(k: nat)
    requires k < 4
    ensures Can(Stage(k), StageStep(k)) && Careful(Stage(k), StageStep(k))
    ensures Next(Stage(k), StageStep(k)) == Stage(k + 1)
  {
    if k < 2 {
      Asking(k);
    } else if k == 2 {
      Answering();
    } else {
      Connecting();
    }
  }

  lemma {:induction false} Asking(k: nat)
    requires k < 2
    ensures Can(Stage(k), StageStep(k)) && Careful(Stage(k), StageStep(k))
    ensures Next(Stage(k), StageStep(k)) == Stage(k + 1)
  {
    hide HandleAtSource, HandleAtDestination, Free;
    var w0 := Start(1);
    assert w0.src.handlers == [Source({}, map[])];
    assert w0.src.handlers[0].unassigned + {1} == {1};
    assert Accept(w0.src, 0, 1).handlers == [Source({1}, map[])];
  }

  lemma {:induction false} Answering()
    ensures Can(Stage(2), StageStep(2)) && Careful(Stage(2), StageStep(2))
    ensures Next(Stage(2), StageStep(2)) == Stage(3)
  {
    hide HandleAtSource, Start;
    assert Outbound(Stage(2)) == [Request(1)] && Inbound(Stage(2)) == [];
    assert Free(Stage(2), 7);
  }

  lemma {:induction false} Connecting()
    ensures Can(Stage(3), StageStep(3)) && Careful(Stage(3), StageStep(3))
    ensures Next(Stage(3), StageStep(3)) == Stage(4)
  {
    hide Free, Start, HandleAtDestination;
    assert WaitingFor(Stage(3).src.handlers, 1) == 0;
    assert AddSocket(Source({1}, map[]), 7, 1) == MAPPED;
    assert AddSourceSocketId(Stage(3).src, 7, 1).handlers == Stage(4).src.handlers;
  }

  lemma {:induction false} FirstConnection(k: nat) returns (steps: seq<Step>)
    requires k <= 4
    ensures Runs(steps, Stage(k), Stage(4))
    decreases 4 - k
  {
    hide Stage, StageStep, Next, Can;
    steps := [];
    if k < 4 {
      StageFollows(k);
      var rest := FirstConnection(k + 1);
      OneStepFirst(StageStep(k), rest, Stage(k), Stage(4));
      steps := [StageStep(k)] + rest;
    }
  }

  /** The destination closes, and before the source end hears of it, it accepts connection 2
      and reads once more from connection 1. */
  lemma {:induction false} SecondConnection() returns (steps: seq<Step>)
    ensures Runs(steps, Scene(MAPPED, map[7 := 0], map[1 := Mapped(0, 7)], [], [], true, [], [], [], true, []),
                 Scene(BOTH, map[7 := 0], map[1 := Mapped(0, 7), 2 := Waiting(0)], [], [], false, [],
                       [Request(2), Data(7, Chunk([65]))], [Data(7, Closed)], true, [65]))
  {
    var one: map<int, Place> := map[1 := Mapped(0, 7)];
    var two: map<int, Place> := map[1 := Mapped(0, 7), 2 := Waiting(0)];
    var end, more := Data(7, Closed), Data(7, Chunk([65]));
    var w0 := Scene(MAPPED, map[7 := 0], one, [], [], true, [], [], [], true, []);
    var w1 := Scene(MAPPED, map[7 := 0], one, [], [], false, [end], [], [], true, []);
    var w2 := Scene(MAPPED, map[7 := 0], one, [], [], false, [], [], [end], true, []);
    var w3 := Scene(BOTH, map[7 := 0], two, [Request(2)], [], false, [], [], [end], true, []);
    var w4 := Scene(BOTH, map[7 := 0], two, [Request(2)], [more], false, [], [], [end], true, [65]);
    var w5 := Scene(BOTH, map[7 := 0], two, [], [], false, [], [Request(2), more], [end], true, [65]);
    assert Next(w0, ReadsDestination(7, Closed)) == w1;
    assert Next(w1, SendsDestination) == w2;
    assert MAPPED.unassigned + {2} == {2};
    assert Accept(w2.src, 0, 2).handlers == [BOTH];
    assert Next(w2, Accepts(0, 2)) == w3;
    assert At(w3.readAtSrc, 7) + [65] == [65];
    assert Longer(w3.readAtSrc, 7, Chunk([65])) == w4.readAtSrc;
    assert w3.data + [more] == w4.data;
    assert Next(w3, ReadsSource(0, 7, Chunk([65]))) == w4;
    assert Next(w4, SendsSource) == w5;
    OneStepFirst(SendsSource, [], w4, w5);
    steps := [SendsSource] + [];
    OneStepFirst(ReadsSource(0, 7, Chunk([65])), steps, w3, w5);
    steps := [ReadsSource(0, 7, Chunk([65]))] + steps;
    OneStepFirst(Accepts(0, 2), steps, w2, w5);
    steps := [Accepts(0, 2)] + steps;
    OneStepFirst(SendsDestination, steps, w1, w5);
    steps := [SendsDestination] + steps;
    OneStepFirst(ReadsDestination(7, Closed), steps, w0, w5);
    steps := [ReadsDestination(7, Closed)] + steps;
  }

  /** The destination end draws 7 again for connection 2, and what was read from connection 1 is
      handed to it. */
  lemma {:induction false} ReusedIdsMixConnections() returns (steps: seq<Step>, w: World)
    ensures Runs(steps, Start(1), w)
    ensures w.client[7 := 2] == w.client && 7 in w.dst && w.dst[7] == 101
    ensures Live(w.src, 7) && FdOf(w.src, 7) == 1
    ensures At(w.givenToDst, 7) == [65] && At(w.readAtSrc, 7) == []
  {
    hide Runs, Start;
    var first := FirstConnection(0);
    var second := SecondConnection();
    var again := Scene(BOTH, map[7 := 0], map[1 := Mapped(0, 7), 2 := Waiting(0)], [], [], false, [],
                       [Request(2), Data(7, Chunk([65]))], [Data(7, Closed)], true, [65]);
    RunsInTurn(first, second, Start(1), Stage(4), again);
    var third;
    third, w := ThirdConnection(again);
    RunsInTurn(first + second, third, Start(1), again, w);
    steps := first + second + third;
  }

  lemma {:induction false} ThirdConnection(again: World) returns (steps: seq<Step>, w: World)
    requires again == Scene(BOTH, map[7 := 0], map[1 := Mapped(0, 7), 2 := Waiting(0)], [], [], false, [],
                            [Request(2), Data(7, Chunk([65]))], [Data(7, Closed)], true, [65])
    ensures Runs(steps, again, w)
    ensures 7 in w.client && w.client[7] == 2 && 7 in w.dst && w.dst[7] == 101 && w.src == again.src
    ensures At(w.givenToDst, 7) == [65] && At(w.readAtSrc, 7) == []
  {
    var draw, take := HandlesAtDestination(Some(101), Some(7)), HandlesAtDestination(None, None);
    DrawEffect(again, 101, 7);
    var w1 := Next(again, draw);
    TakingEffect(w1, 7);
    w := Next(w1, take);
    assert w1.toDst == [Data(7, Chunk([65]))];
    assert [] + [65] == [65];
    OneStepFirst(take, [], w1, w);
    OneStepFirst(draw, [take] + [], again, w);
    steps := [draw] + ([take] + []);
  }
}
