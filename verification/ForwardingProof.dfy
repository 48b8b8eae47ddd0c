/** Every step of port forwarding keeps the two ends in agreement. */
module ForwardingProof {
  import opened Wire
  import opened Forwarding

  // ----- the invariant -----

  ghost predicate Held(e: SourceEnd, fd: int, p: Place) {
    match p
    case Waiting(i) => i < |e.handlers| && fd in e.handlers[i].unassigned
    case Mapped(i, id) => i < |e.handlers| && id in e.handlers[i].sockets && e.handlers[i].sockets[id] == fd
  }

  ghost predicate SocketPlaced(e: SourceEnd, place: map<int, Place>, i: nat, id: int, fd: int) {
    fd in place && place[fd] == Mapped(i, id) && id in e.routes && e.routes[id] == i
  }

  /** Every open fd is held in its one place, every place holds an open fd, and live socket
      ids are routed to the handler that has them. */
  ghost predicate PlacesOk(e: SourceEnd, place: map<int, Place>) {
    && (forall fd :: fd in place ==> Held(e, fd, place[fd]))
    && (forall i: nat, fd: int :: i < |e.handlers| && fd in e.handlers[i].unassigned ==>
          fd in place && place[fd] == Waiting(i))
    && (forall i: nat, id: int :: i < |e.handlers| && id in e.handlers[i].sockets ==>
          SocketPlaced(e, place, i, id, e.handlers[i].sockets[id]))
    && (forall id :: id in e.routes ==> e.routes[id] < |e.handlers|)
  }

  function WaitingFds(place: map<int, Place>): set<int> {
    set fd | fd in place && place[fd].Waiting?
  }

  /** Requests and data go out, and what was read has bytes. */
  predicate GoesOut(m: Message) {
    !m.Response? && (m.Data? && m.event.Chunk? ==> m.event.bytes != [])
  }

  /** Each fd that waits for a socket id has exactly one request or response in flight. */
  ghost predicate PendingOk(w: World) {
    && (forall m :: m in Outbound(w) ==> GoesOut(m))
    && multiset(Asked(Outbound(w))) + multiset(Asked(Inbound(w))) == multiset(WaitingFds(w.place))
  }

  ghost predicate OrderOk(w: World) {
    && Announced(w.src.routes.Keys, Inbound(w))
    && w.dst.Keys <= KnownAfter(w.src.routes.Keys, Inbound(w))
  }

  /** A socket id belongs to the fd that asked for it. */
  ghost predicate ClientsOk(w: World) {
    && (forall m :: m in Inbound(w) && m.Response? && m.socketId.Some? ==>
          m.socketId.value in w.client && w.client[m.socketId.value] == m.fd)
    && (forall id :: Live(w.src, id) ==> id in w.client && w.client[id] == FdOf(w.src, id))
  }

  /** All there is about one socket id: what is on its way out, what is on its way back since
      its last announcement, and its histories. */
  datatype View = View(
    out: seq<Event>, back: seq<Event>, announced: nat, live: bool, routed: bool, dst: bool,
    readAtSrc: Bytes, givenToDst: Bytes, readAtDst: Bytes, givenToSrc: Bytes)

  function ViewOf(w: World, id: int): View {
    View(EventsOf(Outbound(w), id), Latest(Inbound(w), id), Announcements(Inbound(w), id),
         Live(w.src, id), id in w.src.routes, id in w.dst,
         At(w.readAtSrc, id), At(w.givenToDst, id), At(w.readAtDst, id), At(w.givenToSrc, id))
  }

  ghost predicate ViewOk(v: View) {
    && Ordered(v.out) && Ordered(v.back)
    && (HasEnd(v.out) ==> !v.live)
    && (HasEnd(v.back) ==> !v.dst)
    && (v.live ==> v.routed)
    && v.announced <= 1
    && (v.announced == 1 ==> !v.live && v.out == [] && v.readAtSrc == [] && v.givenToSrc == [])
    && v.givenToDst <= v.readAtSrc
    && v.givenToSrc <= v.readAtDst
    && (v.dst ==> v.givenToDst + BytesOf(v.out) == v.readAtSrc)
    && (v.live || v.announced == 1 ==> v.givenToSrc + BytesOf(v.back) == v.readAtDst)
  }

  ghost predicate ViewsOk(w: World) {
    forall id :: ViewOk(ViewOf(w, id))
  }

  ghost predicate ForwardInv(w: World) {
    PlacesOk(w.src, w.place) && PendingOk(w) && OrderOk(w) && ClientsOk(w) && ViewsOk(w)
  }

  // ----- one socket id -----

  lemma {:induction false} ReadKeeps(v: View, event: Event)
    requires ViewOk(v) && v.live
    ensures ViewOk(v.(out := v.out + [event], live := event.Chunk?,
                      readAtSrc := if event.Chunk? then v.readAtSrc + event.bytes else v.readAtSrc))
  {
    hide Ordered, HasEnd, BytesOf;
    BytesConcat(v.out, [event]);
    OneEvent(event);
    AppendOrdered(v.out, event);
  }

  lemma {:induction false} ReadBackKeeps(v: View, event: Event)
    requires ViewOk(v) && v.dst
    ensures ViewOk(v.(back := v.back + [event], dst := event.Chunk?,
                      readAtDst := if event.Chunk? then v.readAtDst + event.bytes else v.readAtDst))
  {
    hide Ordered, HasEnd, BytesOf;
    BytesConcat(v.back, [event]);
    OneEvent(event);
    AppendOrdered(v.back, event);
  }

  lemma {:induction false} AppendOrdered(events: seq<Event>, event: Event)
    requires Ordered(events) && !HasEnd(events)
    ensures Ordered(events + [event]) && (HasEnd(events + [event]) <==> !event.Chunk?)
  {
    var more := events + [event];
    assert more[|events|] == event;
    forall k | 0 <= k < |events|
      ensures more[k].Chunk?
    {
      assert more[k] == events[k];
    }
  }

  lemma {:induction false} OneEvent(event: Event)
    ensures BytesOf([event]) == if event.Chunk? then event.bytes else []
  {
    assert [event][1..] == [];
  }

  lemma {:induction false} BytesHead(events: seq<Event>)
    requires events != []
    ensures BytesOf(events) == (if events[0].Chunk? then events[0].bytes else []) + BytesOf(events[1..])
    ensures Ordered(events) ==> Ordered(events[1..])
    ensures Ordered(events) && !events[0].Chunk? ==> events[1..] == [] && BytesOf(events[1..]) == []
    ensures !events[0].Chunk? ==> HasEnd(events)
    ensures HasEnd(events[1..]) ==> HasEnd(events)
  {
    if Ordered(events) {
      forall k | 0 <= k < |events| - 2
        ensures events[1..][k].Chunk?
      {
        assert events[1..][k] == events[k + 1];
      }
    }
    if HasEnd(events[1..]) {
      var k :| 0 <= k < |events| - 1 && !events[1..][k].Chunk?;
      assert !events[k + 1].Chunk?;
    }
  }

  lemma {:induction false} Regroup(given: Bytes, next: Bytes, rest: Bytes, all: Bytes)
    requires given + (next + rest) == all
    ensures (given + next) + rest == all && given + next <= all
    ensures rest == [] ==> given + next == all
    ensures next == [] ==> given + next == given
  {
  }

  /** The destination end takes the next event. */
  lemma {:induction false} TakeKeeps(v: View)
    requires ViewOk(v) && v.out != []
    ensures var event := v.out[0];
            ViewOk(v.(out := v.out[1..], dst := v.dst && event.Chunk?,
                      givenToDst := if v.dst && event.Chunk? then v.givenToDst + event.bytes else v.givenToDst))
    ensures v.dst && !v.out[0].Chunk? ==> v.givenToDst == v.readAtSrc
  {
    hide Ordered, HasEnd, BytesOf;
    BytesHead(v.out);
    var bytes := if v.out[0].Chunk? then v.out[0].bytes else [];
    if v.dst {
      Regroup(v.givenToDst, bytes, BytesOf(v.out[1..]), v.readAtSrc);
    }
  }

  /** The source end takes the next event. */
  lemma {:induction false} TakeBackKeeps(v: View)
    requires ViewOk(v) && v.back != [] && v.routed && v.announced == 0
    ensures var event := v.back[0];
            ViewOk(v.(back := v.back[1..], live := v.live && event.Chunk?, routed := event.Chunk?,
                      givenToSrc := if v.live && event.Chunk? then v.givenToSrc + event.bytes else v.givenToSrc))
    ensures v.live && !v.back[0].Chunk? ==> v.givenToSrc == v.readAtDst
  {
    hide Ordered, HasEnd, BytesOf;
    BytesHead(v.back);
    var bytes := if v.back[0].Chunk? then v.back[0].bytes else [];
    if v.live {
      Regroup(v.givenToSrc, bytes, BytesOf(v.back[1..]), v.readAtDst);
    }
  }

  /** Only while it is announced does a socket id leave its earlier events to be handled. */
  lemma {:induction false} StaleKeeps(v: View, routed: bool)
    requires ViewOk(v) && v.announced == 1
    ensures ViewOk(v.(routed := routed))
  {
  }

  lemma {:induction false} OpenKeeps(v: View)
    requires ViewOk(v) && !v.live && v.announced == 0 && v.out == []
    ensures ViewOk(v.(back := [], announced := 1, dst := true,
                      readAtSrc := [], givenToDst := [], readAtDst := [], givenToSrc := []))
  {
  }

  lemma {:induction false} MapKeeps(v: View)
    requires ViewOk(v) && v.announced == 1
    ensures ViewOk(v.(announced := 0, live := true, routed := true))
  {
  }

  // ----- messages -----

  lemma {:induction false} OneMessage(m: Message, id: int)
    ensures Asked([m]) == if m.Data? then [] else [m.fd]
    ensures EventsOf([m], id) == if m.Data? && m.id == id then [m.event] else []
    ensures Announcements([m], id) == if Announces(m, id) then 1 else 0
  {
    assert [m][1..] == [];
  }

  lemma {:induction false} AskedOne(m: Message)
    ensures Asked([m]) == if m.Data? then [] else [m.fd]
  {
    assert [m][1..] == [];
  }

  /** A request slipped in before the gathered data. */
  lemma {:induction false} RequestAdded(a: seq<Message>, b: seq<Message>, c: seq<Message>, fd: int)
    ensures multiset(Asked(a + (b + [Request(fd)]) + c)) == multiset(Asked(a + b + c)) + multiset{fd}
    ensures forall id :: EventsOf(a + (b + [Request(fd)]) + c, id) == EventsOf(a + b + c, id)
  {
    hide Asked, EventsOf;
    var m := Request(fd);
    assert a + (b + [m]) + c == (a + b) + [m] + c;
    AskedConcat((a + b) + [m], c);
    AskedConcat(a + b, [m]);
    AskedConcat(a + b, c);
    AskedOne(m);
    forall id
      ensures EventsOf(a + (b + [m]) + c, id) == EventsOf(a + b + c, id)
    {
      EventsConcat((a + b) + [m], c, id);
      EventsConcat(a + b, [m], id);
      EventsConcat(a + b, c, id);
      OneMessage(m, id);
    }
  }

  lemma {:induction false} MessageAdded(a: seq<Message>, m: Message)
    ensures multiset(Asked(a + [m])) == multiset(Asked(a)) + if m.Data? then multiset{} else multiset{m.fd}
    ensures forall id :: EventsOf(a + [m], id) == EventsOf(a, id) + (if m.Data? && m.id == id then [m.event] else [])
    ensures forall id :: Announcements(a + [m], id) == Announcements(a, id) + if Announces(m, id) then 1 else 0
    ensures forall id :: Latest(a + [m], id) ==
                         if Announces(m, id) then []
                         else Latest(a, id) + if m.Data? && m.id == id then [m.event] else []
  {
    AskedConcat(a, [m]);
    AskedOne(m);
    forall id
      ensures EventsOf(a + [m], id) == EventsOf(a, id) + (if m.Data? && m.id == id then [m.event] else [])
      ensures Announcements(a + [m], id) == Announcements(a, id) + if Announces(m, id) then 1 else 0
      ensures Latest(a + [m], id) ==
              if Announces(m, id) then [] else Latest(a, id) + if m.Data? && m.id == id then [m.event] else []
    {
      EventsConcat(a, [m], id);
      LatestAdded(a, m, id);
      OneMessage(m, id);
    }
  }

  lemma {:induction false} MessageTaken(msgs: seq<Message>)
    requires msgs != []
    ensures var m := msgs[0];
            && multiset(Asked(msgs)) == (if m.Data? then multiset{} else multiset{m.fd}) + multiset(Asked(msgs[1..]))
            && (forall id :: EventsOf(msgs, id) ==
                             (if m.Data? && m.id == id then [m.event] else []) + EventsOf(msgs[1..], id))
            && (forall id :: Announcements(msgs, id) ==
                             (if Announces(m, id) then 1 else 0) + Announcements(msgs[1..], id))
            && (forall id :: Latest(msgs, id) ==
                             (if Announcements(msgs, id) == 0 && m.Data? && m.id == id then [m.event] else [])
                             + Latest(msgs[1..], id))
  {
    forall id
      ensures Latest(msgs, id) ==
              (if Announcements(msgs, id) == 0 && msgs[0].Data? && msgs[0].id == id then [msgs[0].event] else [])
              + Latest(msgs[1..], id)
    {
      if Announcements(msgs[1..], id) == 0 {
        LatestIsAll(msgs[1..], id);
      }
    }
  }

  // ----- gathering -----

  lemma {:induction false} AcceptsKeeps(w: World, i: nat, fd: int)
    requires ForwardInv(w) && Can(w, Accepts(i, fd))
    ensures ForwardInv(Next(w, Accepts(i, fd)))
  {
    hide ViewOk, Asked, EventsOf, Announcements, Latest, Announced, KnownAfter, PlacesOk;
    var w' := Next(w, Accepts(i, fd));
    RequestAdded(w.toDst, w.requests, w.data, fd);
    AcceptPlaces(w.src, w.place, i, fd);
    assert WaitingFds(w'.place) == WaitingFds(w.place) + {fd};
    assert multiset(WaitingFds(w.place) + {fd}) == multiset(WaitingFds(w.place)) + multiset{fd};
    forall id
      ensures ViewOk(ViewOf(w', id))
    {
      assert ViewOf(w', id) == ViewOf(w, id) && ViewOk(ViewOf(w, id));
    }
  }

  lemma {:induction false} LongerAt(m: map<int, Bytes>, id: int, event: Event)
    ensures At(Longer(m, id, event), id) == if event.Chunk? then At(m, id) + event.bytes else At(m, id)
    ensures forall other :: other != id ==> At(Longer(m, id, event), other) == At(m, other)
  {
  }

  lemma {:induction false} AcceptPlaces(e: SourceEnd, place: map<int, Place>, i: nat, fd: int)
    requires PlacesOk(e, place) && i < |e.handlers| && fd !in place
    ensures PlacesOk(Accept(e, i, fd), place[fd := Waiting(i)])
    ensures forall id :: Live(Accept(e, i, fd), id) == Live(e, id)
    ensures forall id :: Live(e, id) ==> FdOf(Accept(e, i, fd), id) == FdOf(e, id)
  {
  }

  lemma {:induction false} ReadsSourceKeeps(w: World, i: nat, id: int, event: Event)
    requires ForwardInv(w) && Can(w, ReadsSource(i, id, event))
    ensures ForwardInv(Next(w, ReadsSource(i, id, event)))
  {
    hide ViewOk, Asked, EventsOf, Announcements, Latest, Announced, KnownAfter, PlacesOk, Live, At, Longer;
    var w' := Next(w, ReadsSource(i, id, event));
    LongerAt(w.readAtSrc, id, event);
    MessageAdded(Outbound(w), Data(id, event));
    assert Outbound(w') == Outbound(w) + [Data(id, event)];
    RoutedWhenMapped(w.src, w.place, i, id);
    assert Partner(w, id, w.src.handlers[i].sockets[id]);
    if !event.Chunk? {
      EndPlaces(w.src, w.place, i, id);
    }
    forall other
      ensures ViewOk(ViewOf(w', other))
    {
      assert ViewOk(ViewOf(w, other));
      if other == id {
        ReadKeeps(ViewOf(w, id), event);
      } else {
        assert ViewOf(w', other) == ViewOf(w, other);
      }
    }
  }

  lemma {:induction false} RoutedWhenMapped(e: SourceEnd, place: map<int, Place>, i: nat, id: int)
    requires PlacesOk(e, place) && i < |e.handlers| && id in e.handlers[i].sockets
    ensures Live(e, id) && e.routes[id] == i && FdOf(e, id) == e.handlers[i].sockets[id]
  {
  }

  lemma {:induction false} EndPlaces(e: SourceEnd, place: map<int, Place>, i: nat, id: int)
    requires PlacesOk(e, place) && i < |e.handlers| && id in e.handlers[i].sockets
    ensures var e', fd := SourceEnded(e, i, id), e.handlers[i].sockets[id];
            && PlacesOk(e', place - {fd}) && WaitingFds(place - {fd}) == WaitingFds(place)
            && fd in place && e'.routes == e.routes
            && (forall other :: Live(e', other) <==> Live(e, other) && other != id)
            && (forall other :: Live(e', other) ==> FdOf(e', other) == FdOf(e, other))
  {
    var e', fd := SourceEnded(e, i, id), e.handlers[i].sockets[id];
    assert place[fd] == Mapped(i, id);
    forall f | f in place - {fd}
      ensures Held(e', f, (place - {fd})[f])
    {
      assert Held(e, f, place[f]);
    }
    forall j: nat, other: int | j < |e'.handlers| && other in e'.handlers[j].sockets
      ensures SocketPlaced(e', place - {fd}, j, other, e'.handlers[j].sockets[other])
    {
      assert SocketPlaced(e, place, j, other, e.handlers[j].sockets[other]);
    }
  }

  lemma {:induction false} SendsSourceKeeps(w: World)
    requires ForwardInv(w)
    ensures ForwardInv(Next(w, SendsSource))
  {
    hide ViewOk, PlacesOk, Live, Asked, EventsOf, Announcements, Latest, Announced, KnownAfter;
    var w' := Next(w, SendsSource);
    assert Outbound(w') == Outbound(w);
    forall id
      ensures ViewOk(ViewOf(w', id))
    {
      assert ViewOf(w', id) == ViewOf(w, id);
    }
  }

  lemma {:induction false} ReadsDestinationKeeps(w: World, id: int, event: Event)
    requires ForwardInv(w) && Can(w, ReadsDestination(id, event))
    ensures ForwardInv(Next(w, ReadsDestination(id, event)))
  {
    hide ViewOk, PlacesOk, Live, Asked, EventsOf, Announcements, Latest, Announced, KnownAfter, At, Longer;
    var w' := Next(w, ReadsDestination(id, event));
    LongerAt(w.readAtDst, id, event);
    var m := Data(id, event);
    MessageAdded(Inbound(w), m);
    assert Inbound(w') == Inbound(w) + [m];
    InboundGrows(w.src.routes.Keys, Inbound(w), m);
    forall other
      ensures ViewOk(ViewOf(w', other))
    {
      assert ViewOk(ViewOf(w, other));
      if other == id {
        ReadBackKeeps(ViewOf(w, id), event);
      } else {
        assert ViewOf(w', other) == ViewOf(w, other);
      }
    }
  }

  lemma {:induction false} InboundGrows(known: set<int>, msgs: seq<Message>, m: Message)
    requires Announced(known, msgs) && Follows(KnownAfter(known, msgs), m)
    ensures Announced(known, msgs + [m])
    ensures KnownAfter(known, msgs + [m]) == Knows(KnownAfter(known, msgs), m)
  {
    AnnouncedConcat(known, msgs, [m]);
    assert [m][1..] == [];
  }

  lemma {:induction false} SendsDestinationKeeps(w: World)
    requires ForwardInv(w)
    ensures ForwardInv(Next(w, SendsDestination))
  {
    hide ViewOk, PlacesOk, Live, Asked, EventsOf, Announcements, Latest, Announced, KnownAfter;
    var w' := Next(w, SendsDestination);
    assert Inbound(w') == Inbound(w);
    forall id
      ensures ViewOk(ViewOf(w', id))
    {
      assert ViewOf(w', id) == ViewOf(w, id);
    }
  }

  // ----- handling at the destination end -----

  /** Neither end's own state changes, nor any history. */
  predicate SameRest(w: World, w': World) {
    && w'.src == w.src && w'.place == w.place
    && w'.readAtSrc == w.readAtSrc && w'.readAtDst == w.readAtDst && w'.givenToSrc == w.givenToSrc
  }

  predicate SameHistories(w: World, w': World) {
    && w'.readAtSrc == w.readAtSrc && w'.readAtDst == w.readAtDst
    && w'.givenToDst == w.givenToDst && w'.givenToSrc == w.givenToSrc
  }

  lemma {:induction false} TakenFromOutbound(w: World, w': World)
    requires w.toDst != [] && w'.toDst == w.toDst[1..] && w'.requests == w.requests && w'.data == w.data
    ensures Outbound(w) != [] && Outbound(w)[0] == w.toDst[0] && Outbound(w)[1..] == Outbound(w')
    ensures forall m :: m in Outbound(w') ==> m in Outbound(w)
    ensures w.toDst[0] in Outbound(w)
  {
  }

  lemma {:induction false} RequestEffect(w: World, connected: Option<int>, drawn: Option<int>)
    requires Can(w, HandlesAtDestination(connected, drawn)) && w.toDst[0].Request?
    ensures var w', opens := Next(w, HandlesAtDestination(connected, drawn)), connected.Some? && drawn.Some?;
            && Inbound(w') == Inbound(w) + [Response(w.toDst[0].fd, if opens then drawn else None)]
            && w'.toDst == w.toDst[1..] && w'.requests == w.requests && w'.data == w.data
            && w'.src == w.src && w'.place == w.place
            && (!opens ==> SameHistories(w, w'))
            && (opens ==> SameHistories(Forget(w, drawn.value), w'))
            && w'.dst == (if opens then w.dst[drawn.value := connected.value] else w.dst)
            && w'.client == (if opens then w.client[drawn.value := w.toDst[0].fd] else w.client)
    ensures w.toDst != []
  {
    assert w.dstData == [];
  }

  lemma {:induction false} DestinationRequestKeeps(w: World, connected: Option<int>, drawn: Option<int>)
    requires ForwardInv(w) && Can(w, HandlesAtDestination(connected, drawn)) && w.toDst[0].Request?
    requires Careful(w, HandlesAtDestination(connected, drawn))
    ensures ForwardInv(Next(w, HandlesAtDestination(connected, drawn)))
  {
    hide Next, Can, PlacesOk, PendingOk, OrderOk, ClientsOk, ViewsOk, Inbound, Outbound, Free, SameHistories;
    RequestEffect(w, connected, drawn);
    var w', fd := Next(w, HandlesAtDestination(connected, drawn)), w.toDst[0].fd;
    var id := if connected.Some? && drawn.Some? then drawn else None;
    TakenFromOutbound(w, w');
    RequestPending(w, w', Response(fd, id));
    RequestOrder(w, w', fd, id);
    RequestViews(w, w', fd, id);
  }

  lemma {:induction false} RequestPending(w: World, w': World, m: Message)
    requires PendingOk(w) && m.Response? && Outbound(w) != [] && Outbound(w)[0] == Request(m.fd)
    requires Outbound(w)[1..] == Outbound(w') && Inbound(w') == Inbound(w) + [m] && w'.place == w.place
    ensures PendingOk(w')
  {
    hide Asked, EventsOf, Announcements, Latest, WaitingFds, Inbound, Outbound;
    MessageTaken(Outbound(w));
    MessageAdded(Inbound(w), m);
    forall m | m in Outbound(w')
      ensures m in Outbound(w)
    {
    }
  }

  lemma {:induction false} RequestOrder(w: World, w': World, fd: int, id: Option<int>)
    requires OrderOk(w) && ClientsOk(w) && w'.src == w.src
    requires Inbound(w') == Inbound(w) + [Response(fd, id)]
    requires id.Some? ==> Free(w, id.value)
    requires w'.client == if id.Some? then w.client[id.value := fd] else w.client
    requires w'.dst.Keys == if id.Some? then w.dst.Keys + {id.value} else w.dst.Keys
    ensures OrderOk(w') && ClientsOk(w')
  {
    hide Announced, KnownAfter, Inbound, Outbound, Live, Announcements, EventsOf;
    if id.Some? {
      NotAnnounced(Inbound(w), id.value);
    }
    InboundGrows(w.src.routes.Keys, Inbound(w), Response(fd, id));
  }

  lemma {:induction false} NotAnnounced(msgs: seq<Message>, id: int)
    requires Announcements(msgs, id) == 0
    ensures forall m :: m in msgs ==> !Announces(m, id)
  {
    if msgs != [] {
      NotAnnounced(msgs[1..], id);
    }
  }

  lemma {:induction false} RequestViews(w: World, w': World, fd: int, id: Option<int>)
    requires ViewsOk(w) && w'.src == w.src
    requires id.None? ==> SameHistories(w, w')
    requires id.Some? ==> Free(w, id.value) && SameHistories(Forget(w, id.value), w')
    requires Outbound(w) != [] && Outbound(w)[0] == Request(fd)
    requires Outbound(w)[1..] == Outbound(w') && Inbound(w') == Inbound(w) + [Response(fd, id)]
    requires w'.dst.Keys == if id.Some? then w.dst.Keys + {id.value} else w.dst.Keys
    ensures ViewsOk(w')
  {
    hide ViewOk, Live, Asked, EventsOf, Announcements, Latest, Inbound, Outbound, At;
    MessageTaken(Outbound(w));
    MessageAdded(Inbound(w), Response(fd, id));
    if id.Some? {
      ForgetAt(w, id.value);
    }
    forall other
      ensures ViewOk(ViewOf(w', other))
    {
      assert ViewOk(ViewOf(w, other));
      if Some(other) == id {
        OpenKeeps(ViewOf(w, other));
      } else {
        assert ViewOf(w', other) == ViewOf(w, other);
      }
    }
  }

  lemma {:induction false} ForgetAt(w: World, id: int)
    ensures var f := Forget(w, id);
            && At(f.readAtSrc, id) == At(f.givenToDst, id) == At(f.readAtDst, id) == At(f.givenToSrc, id) == []
            && forall other :: other != id ==>
                 && At(f.readAtSrc, other) == At(w.readAtSrc, other) && At(f.givenToDst, other) == At(w.givenToDst, other)
                 && At(f.readAtDst, other) == At(w.readAtDst, other) && At(f.givenToSrc, other) == At(w.givenToSrc, other)
  {
  }

  lemma {:induction false} DataEffect(w: World, connected: Option<int>, drawn: Option<int>)
    requires Can(w, HandlesAtDestination(connected, drawn)) && w.toDst[0].Data?
    ensures var w', id, event := Next(w, HandlesAtDestination(connected, drawn)), w.toDst[0].id, w.toDst[0].event;
            && Inbound(w') == Inbound(w) && w'.client == w.client && SameRest(w, w')
            && w'.toDst == w.toDst[1..] && w'.requests == w.requests && w'.data == w.data
            && w'.dst.Keys == (if event.Chunk? then w.dst.Keys else w.dst.Keys - {id})
            && w'.givenToDst == (if id in w.dst then Longer(w.givenToDst, id, event) else w.givenToDst)
    ensures w.toDst != []
  {
    hide Inbound, Longer;
    var m, w' := w.toDst[0], Next(w, HandlesAtDestination(connected, drawn));
    assert w' == HandleAtDestination(w, m, connected, drawn);
    if m.id in w.dst && !m.event.Chunk? {
      assert Longer(w.givenToDst, m.id, m.event) == w.givenToDst by {
        EndIsNoLonger(w.givenToDst, m.id, m.event);
      }
    }
    SameInbound(w, w');
  }

  lemma {:induction false} EndIsNoLonger(m: map<int, Bytes>, id: int, event: Event)
    requires !event.Chunk?
    ensures Longer(m, id, event) == m
  {
  }

  lemma {:induction false} SameInbound(w: World, w': World)
    requires w'.toSrc == w.toSrc && w'.dstData == w.dstData
    ensures Inbound(w') == Inbound(w)
  {
  }

  lemma {:induction false} DestinationDataKeeps(w: World, connected: Option<int>, drawn: Option<int>)
    requires ForwardInv(w) && Can(w, HandlesAtDestination(connected, drawn)) && w.toDst[0].Data?
    ensures ForwardInv(Next(w, HandlesAtDestination(connected, drawn)))
  {
    hide Next, Can, PlacesOk, PendingOk, OrderOk, ClientsOk, ViewsOk, Inbound, Outbound;
    DataEffect(w, connected, drawn);
    var w', m := Next(w, HandlesAtDestination(connected, drawn)), w.toDst[0];
    TakenFromOutbound(w, w');
    DataLeavesRest(w, w');
    DestinationViews(w, w', m.id, m.event);
  }

  lemma {:induction false} DataLeavesRest(w: World, w': World)
    requires PendingOk(w) && OrderOk(w) && ClientsOk(w) && SameRest(w, w') && w'.client == w.client
    requires Inbound(w') == Inbound(w) && w'.dst.Keys <= w.dst.Keys
    requires Outbound(w) != [] && Outbound(w)[0].Data? && Outbound(w)[1..] == Outbound(w')
    ensures PendingOk(w') && OrderOk(w') && ClientsOk(w')
  {
    hide Asked, EventsOf, Announcements, Latest, Announced, KnownAfter, Live, Inbound, Outbound;
    MessageTaken(Outbound(w));
    forall m | m in Outbound(w')
      ensures m in Outbound(w)
    {
    }
  }

  lemma {:induction false} DestinationViews(w: World, w': World, id: int, event: Event)
    requires ViewsOk(w) && SameRest(w, w') && Inbound(w') == Inbound(w) && w'.client == w.client
    requires Outbound(w) != [] && Outbound(w)[0] == Data(id, event) && Outbound(w)[1..] == Outbound(w')
    requires w'.dst.Keys == if event.Chunk? then w.dst.Keys else w.dst.Keys - {id}
    requires w'.givenToDst == if id in w.dst then Longer(w.givenToDst, id, event) else w.givenToDst
    ensures ViewsOk(w')
  {
    hide ViewOk, Live, Asked, EventsOf, Announcements, Latest, Inbound, Outbound, At, Longer;
    MessageTaken(Outbound(w));
    LongerAt(w.givenToDst, id, event);
    forall other
      ensures ViewOk(ViewOf(w', other))
    {
      assert ViewOk(ViewOf(w, other));
      if other == id {
        var v := ViewOf(w, id);
        TakeKeeps(v);
        assert v.out[0] == event && v.out[1..] == EventsOf(Outbound(w'), id);
      } else {
        assert ViewOf(w', other) == ViewOf(w, other);
      }
    }
  }

  // ----- handling at the source end -----

  lemma {:induction false} TakenFromInbound(w: World, w': World)
    requires w.toSrc != [] && w'.toSrc == w.toSrc[1..] && w'.dstData == w.dstData
    ensures Inbound(w) != [] && Inbound(w)[0] == w.toSrc[0] && Inbound(w)[1..] == Inbound(w')
    ensures forall m :: m in Inbound(w') ==> m in Inbound(w)
    ensures w.toSrc[0] in Inbound(w)
  {
  }

  /** Only what the source end holds and what is on its way to it may have changed. */
  predicate SameDestination(w: World, w': World) {
    && w'.dst == w.dst && w'.dstOpen == w.dstOpen && w'.client == w.client && Outbound(w') == Outbound(w)
    && w'.readAtSrc == w.readAtSrc && w'.readAtDst == w.readAtDst && w'.givenToDst == w.givenToDst
  }

  /** An fd named in a response is waiting, in the handler where the search finds it. */
  lemma {:induction false} ResponseFindsItsFd(w: World, fd: int)
    requires PlacesOk(w.src, w.place) && PendingOk(w)
    requires Inbound(w) != [] && Inbound(w)[0].Response? && Inbound(w)[0].fd == fd
    ensures var i := WaitingFor(w.src.handlers, fd);
            i < |w.src.handlers| && fd in w.place && w.place[fd] == Waiting(i)
    ensures multiset(WaitingFds(w.place) - {fd}) == multiset(WaitingFds(w.place)) - multiset{fd}
  {
    hide Asked, Outbound, Inbound, EventsOf, Announcements, Latest;
    MessageTaken(Inbound(w));
    assert fd in multiset(Asked(Inbound(w)));
    assert fd in multiset(WaitingFds(w.place));
    assert Held(w.src, fd, w.place[fd]);
    var i := WaitingFor(w.src.handlers, fd);
    assert fd in w.src.handlers[i].unassigned;
  }

  lemma {:induction false} ClosePlaces(e: SourceEnd, place: map<int, Place>, fd: int)
    requires PlacesOk(e, place) && WaitingFor(e.handlers, fd) < |e.handlers|
    ensures var e' := CloseSourceFd(e, fd);
            && PlacesOk(e', place - {fd}) && e'.routes == e.routes
            && (forall id :: Live(e', id) == Live(e, id)) && (forall id :: Live(e, id) ==> FdOf(e', id) == FdOf(e, id))
    ensures WaitingFds(place - {fd}) == WaitingFds(place) - {fd}
  {
    hide WaitingFor;
    var e', i := CloseSourceFd(e, fd), WaitingFor(e.handlers, fd);
    WaitingIsWaiting(e, place, fd);
    forall f | f in place - {fd}
      ensures Held(e', f, (place - {fd})[f])
    {
      assert Held(e, f, place[f]);
    }
    forall j: nat, other: int | j < |e'.handlers| && other in e'.handlers[j].sockets
      ensures SocketPlaced(e', place - {fd}, j, other, e'.handlers[j].sockets[other])
    {
      assert SocketPlaced(e, place, j, other, e.handlers[j].sockets[other]);
    }
  }

  lemma {:induction false} WaitingIsWaiting(e: SourceEnd, place: map<int, Place>, fd: int)
    requires PlacesOk(e, place)
    ensures var i := WaitingFor(e.handlers, fd);
            i < |e.handlers| ==> fd in e.handlers[i].unassigned && fd in place && place[fd] == Waiting(i)
  {
    var i := WaitingFor(e.handlers, fd);
    if i < |e.handlers| {
      assert fd in e.handlers[i].unassigned;
    }
  }

  lemma {:induction false} AddPlaces(e: SourceEnd, place: map<int, Place>, id: int, fd: int)
    requires PlacesOk(e, place) && WaitingFor(e.handlers, fd) < |e.handlers| && !Live(e, id)
    ensures var e', i := AddSourceSocketId(e, id, fd), WaitingFor(e.handlers, fd);
            && PlacesOk(e', place[fd := Mapped(i, id)]) && e'.routes.Keys == e.routes.Keys + {id}
            && Live(e', id) && FdOf(e', id) == fd
            && (forall other :: other != id ==> Live(e', other) == Live(e, other))
            && (forall other :: other != id && Live(e, other) ==> FdOf(e', other) == FdOf(e, other))
            && WaitingFds(place[fd := Mapped(i, id)]) == WaitingFds(place) - {fd}
  {
    hide WaitingFor;
    var e', i := AddSourceSocketId(e, id, fd), WaitingFor(e.handlers, fd);
    var place' := place[fd := Mapped(i, id)];
    WaitingIsWaiting(e, place, fd);
    NotYetMapped(e, place, id);
    forall f | f in place'
      ensures Held(e', f, place'[f])
    {
      assert f != fd ==> Held(e, f, place[f]);
    }
    forall j: nat, other: int | j < |e'.handlers| && other in e'.handlers[j].sockets
      ensures SocketPlaced(e', place', j, other, e'.handlers[j].sockets[other])
    {
      assert other != id ==> SocketPlaced(e, place, j, other, e.handlers[j].sockets[other]);
    }
  }

  lemma {:induction false} NotYetMapped(e: SourceEnd, place: map<int, Place>, id: int)
    requires PlacesOk(e, place) && !Live(e, id)
    ensures forall i :: 0 <= i < |e.handlers| ==> id !in e.handlers[i].sockets
  {
    forall i: nat | i < |e.handlers|
      ensures id !in e.handlers[i].sockets
    {
      assert id in e.handlers[i].sockets ==> SocketPlaced(e, place, i, id, e.handlers[i].sockets[id]);
    }
  }

  lemma {:induction false} EndRoutePlaces(e: SourceEnd, place: map<int, Place>, id: int)
    requires PlacesOk(e, place) && id in e.routes
    ensures var e', place' := CloseSourceSocketId(e, id), if Live(e, id) then place - {FdOf(e, id)} else place;
            && PlacesOk(e', place') && e'.routes.Keys == e.routes.Keys - {id}
            && (forall other :: Live(e', other) <==> Live(e, other) && other != id)
            && (forall other :: Live(e', other) ==> FdOf(e', other) == FdOf(e, other))
            && WaitingFds(place') == WaitingFds(place)
    ensures Live(e, id) ==> FdOf(e, id) in place
  {
    var i := e.routes[id];
    var e' := CloseSourceSocketId(e, id);
    if Live(e, id) {
      EndPlaces(e, place, i, id);
      var middle := SourceEnded(e, i, id);
      assert e' == middle.(routes := e.routes - {id});
      RouteDropped(middle, place - {FdOf(e, id)}, id);
    } else {
      assert e.handlers[i].sockets - {id} == e.handlers[i].sockets;
      assert e'.handlers == e.handlers;
      RouteDropped(e, place, id);
    }
  }

  lemma {:induction false} RouteDropped(e: SourceEnd, place: map<int, Place>, id: int)
    requires PlacesOk(e, place) && !Live(e, id)
    ensures PlacesOk(e.(routes := e.routes - {id}), place)
  {
    var e' := e.(routes := e.routes - {id});
    forall f | f in place
      ensures Held(e', f, place[f])
    {
      assert Held(e, f, place[f]);
    }
    forall j: nat, other: int | j < |e'.handlers| && other in e'.handlers[j].sockets
      ensures SocketPlaced(e', place, j, other, e'.handlers[j].sockets[other])
    {
      assert SocketPlaced(e, place, j, other, e.handlers[j].sockets[other]);
    }
  }

  lemma {:induction false} InboundHead(known: set<int>, msgs: seq<Message>)
    requires Announced(known, msgs) && msgs != []
    ensures Follows(known, msgs[0]) && Announced(Knows(known, msgs[0]), msgs[1..])
    ensures KnownAfter(known, msgs) == KnownAfter(Knows(known, msgs[0]), msgs[1..])
  {
  }

  // What handling the next packet at the source end changes.

  lemma {:induction false} ErrorEffect(w: World)
    requires Can(w, HandlesAtSource) && w.toSrc[0].Response? && w.toSrc[0].socketId.None?
    ensures w.toSrc != []
    ensures var w' := Next(w, HandlesAtSource);
            w'.toSrc == w.toSrc[1..] && w'.dstData == w.dstData && SameDestination(w, w')
    ensures var w', fd := Next(w, HandlesAtSource), w.toSrc[0].fd;
            w'.src == CloseSourceFd(w.src, fd) && w'.place == w.place - {fd} && w'.givenToSrc == w.givenToSrc
  {
    hide CloseSourceFd;
    assert Next(w, HandlesAtSource) == HandleAtSource(w, w.toSrc[0]);
  }

  lemma {:induction false} MapEffect(w: World)
    requires Can(w, HandlesAtSource) && w.toSrc[0].Response? && w.toSrc[0].socketId.Some?
    ensures w.toSrc != []
    ensures var w' := Next(w, HandlesAtSource);
            w'.toSrc == w.toSrc[1..] && w'.dstData == w.dstData && SameDestination(w, w')
    ensures var w', fd, id := Next(w, HandlesAtSource), w.toSrc[0].fd, w.toSrc[0].socketId.value;
            && w'.src == AddSourceSocketId(w.src, id, fd) && w'.givenToSrc == w.givenToSrc
            && (WaitingFor(w.src.handlers, fd) < |w.src.handlers| ==>
                  w'.place == w.place[fd := Mapped(WaitingFor(w.src.handlers, fd), id)])
  {
    hide AddSourceSocketId, WaitingFor;
    assert Next(w, HandlesAtSource) == HandleAtSource(w, w.toSrc[0]);
  }

  lemma {:induction false} SourceDataEffect(w: World)
    requires Can(w, HandlesAtSource) && w.toSrc[0].Data?
    ensures w.toSrc != []
    ensures var w' := Next(w, HandlesAtSource);
            w'.toSrc == w.toSrc[1..] && w'.dstData == w.dstData && SameDestination(w, w')
    ensures var w', id, event := Next(w, HandlesAtSource), w.toSrc[0].id, w.toSrc[0].event;
            && (event.Chunk? ==> w'.src == w.src && w'.place == w.place)
            && w'.givenToSrc == (if event.Chunk? && Live(w.src, id) && Partner(w, id, FdOf(w.src, id))
                                 then Longer(w.givenToSrc, id, event) else w.givenToSrc)
            && (!event.Chunk? ==>
                  && w'.src == CloseSourceSocketId(w.src, id)
                  && w'.place == if Live(w.src, id) then w.place - {FdOf(w.src, id)} else w.place)
  {
    hide Live, FdOf, Longer, CloseSourceSocketId;
    assert Next(w, HandlesAtSource) == HandleAtSource(w, w.toSrc[0]);
  }

  lemma {:induction false} SourceErrorKeeps(w: World)
    requires ForwardInv(w) && Can(w, HandlesAtSource) && w.toSrc[0].Response? && w.toSrc[0].socketId.None?
    ensures ForwardInv(Next(w, HandlesAtSource))
  {
    hide Next, Can, Inbound, Outbound, PlacesOk, PendingOk, OrderOk, ClientsOk, ViewsOk, CloseSourceFd, WaitingFds;
    hide Live, FdOf, WaitingFor;
    ErrorEffect(w);
    var w', fd := Next(w, HandlesAtSource), w.toSrc[0].fd;
    TakenFromInbound(w, w');
    ResponseFindsItsFd(w, fd);
    ClosePlaces(w.src, w.place, fd);
    PendingShrinks(w, w', fd);
    SourceHandled(w, w');
    ResponseViews(w, w', fd);
  }

  lemma {:induction false} PendingShrinks(w: World, w': World, fd: int)
    requires PendingOk(w) && Outbound(w') == Outbound(w)
    requires Inbound(w) != [] && Inbound(w)[0].Response? && Inbound(w)[0].fd == fd && Inbound(w)[1..] == Inbound(w')
    requires multiset(WaitingFds(w'.place)) == multiset(WaitingFds(w.place)) - multiset{fd}
    ensures PendingOk(w')
  {
    hide Asked, EventsOf, Announcements, Latest, WaitingFds, Inbound, Outbound;
    MessageTaken(Inbound(w));
  }

  /** The order of what is left to handle, and the owners of socket ids. */
  lemma {:induction false} SourceHandled(w: World, w': World)
    requires OrderOk(w) && ClientsOk(w) && SameDestination(w, w') && Inbound(w) != []
    requires Inbound(w)[1..] == Inbound(w') && (forall m :: m in Inbound(w') ==> m in Inbound(w))
    requires w'.src.routes.Keys == Knows(w.src.routes.Keys, Inbound(w)[0])
    requires forall id :: Live(w'.src, id) ==>
               (Live(w.src, id) && FdOf(w'.src, id) == FdOf(w.src, id)) ||
               (Response(FdOf(w'.src, id), Some(id)) in Inbound(w))
    ensures OrderOk(w') && ClientsOk(w')
  {
    hide Announced, KnownAfter, Inbound, Outbound, Live, FdOf;
    InboundHead(w.src.routes.Keys, Inbound(w));
  }

  lemma {:induction false} ResponseViews(w: World, w': World, fd: int)
    requires ViewsOk(w) && SameDestination(w, w') && w'.givenToSrc == w.givenToSrc
    requires Inbound(w) != [] && Inbound(w)[0] == Response(fd, None) && Inbound(w)[1..] == Inbound(w')
    requires w'.src.routes == w.src.routes && forall id :: Live(w'.src, id) == Live(w.src, id)
    ensures ViewsOk(w')
  {
    hide ViewOk, Live, Asked, EventsOf, Announcements, Latest, Inbound, Outbound;
    MessageTaken(Inbound(w));
    forall id
      ensures ViewOk(ViewOf(w', id))
    {
      assert ViewOk(ViewOf(w, id)) && ViewOf(w', id) == ViewOf(w, id);
    }
  }

  lemma {:induction false} SourceMapsKeeps(w: World)
    requires ForwardInv(w) && Can(w, HandlesAtSource) && w.toSrc[0].Response? && w.toSrc[0].socketId.Some?
    ensures ForwardInv(Next(w, HandlesAtSource))
  {
    hide Next, Can, Inbound, Outbound, PlacesOk, PendingOk, ClientsOk, ViewsOk, AddSourceSocketId, WaitingFds;
    hide Live, FdOf, WaitingFor, Announced, KnownAfter;
    MapEffect(w);
    var w', fd, id := Next(w, HandlesAtSource), w.toSrc[0].fd, w.toSrc[0].socketId.value;
    TakenFromInbound(w, w');
    InboundHead(w.src.routes.Keys, Inbound(w));
    ResponseFindsItsFd(w, fd);
    AnnouncedIsNotLive(w, id);
    AddPlaces(w.src, w.place, id, fd);
    PendingShrinks(w, w', fd);
    SourceHandled(w, w');
    MapViews(w, w', fd, id);
  }

  lemma {:induction false} MapViews(w: World, w': World, fd: int, id: int)
    requires ViewsOk(w) && SameDestination(w, w') && w'.givenToSrc == w.givenToSrc
    requires Inbound(w) != [] && Inbound(w)[0] == Response(fd, Some(id)) && Inbound(w)[1..] == Inbound(w')
    requires w'.src.routes.Keys == w.src.routes.Keys + {id} && Live(w'.src, id)
    requires forall other :: other != id ==> Live(w'.src, other) == Live(w.src, other)
    ensures ViewsOk(w')
  {
    hide ViewOk, Live, Asked, EventsOf, Announcements, Latest, Inbound, Outbound;
    MessageTaken(Inbound(w));
    forall other
      ensures ViewOk(ViewOf(w', other))
    {
      assert ViewOk(ViewOf(w, other));
      if other == id {
        AnnouncedOnce(ViewOf(w, id));
        MapKeeps(ViewOf(w, id));
        assert ViewOf(w', id) == ViewOf(w, id).(announced := 0, live := true, routed := true);
      } else {
        assert ViewOf(w', other) == ViewOf(w, other);
      }
    }
  }

  lemma {:induction false} AnnouncedIsNotLive(w: World, id: int)
    requires ViewsOk(w) && Inbound(w) != [] && Announces(Inbound(w)[0], id)
    ensures !Live(w.src, id)
  {
    hide Live, Inbound, Outbound, EventsOf, Latest, Ordered, HasEnd, BytesOf;
    assert ViewOk(ViewOf(w, id));
  }

  lemma {:induction false} AnnouncedOnce(v: View)
    requires ViewOk(v)
    ensures v.announced <= 1 && (v.announced == 1 ==> !v.live)
  {
  }

  lemma {:induction false} SourceDataKeeps(w: World)
    requires ForwardInv(w) && Can(w, HandlesAtSource) && w.toSrc[0].Data?
    ensures ForwardInv(Next(w, HandlesAtSource))
  {
    hide Next, Can, Inbound, Outbound, PlacesOk, PendingOk, ClientsOk, ViewsOk, CloseSourceSocketId, WaitingFds;
    hide Live, FdOf, Announced, KnownAfter, Longer;
    SourceDataEffect(w);
    var w', id, event := Next(w, HandlesAtSource), w.toSrc[0].id, w.toSrc[0].event;
    TakenFromInbound(w, w');
    InboundHead(w.src.routes.Keys, Inbound(w));
    EndRoutePlaces(w.src, w.place, id);
    LiveIsPartner(w, id);
    PendingStays(w, w');
    SourceHandled(w, w');
    SourceViews(w, w', id, event);
  }

  lemma {:induction false} LiveIsPartner(w: World, id: int)
    requires ClientsOk(w)
    ensures Live(w.src, id) ==> Partner(w, id, FdOf(w.src, id))
  {
    hide Live, FdOf;
  }

  lemma {:induction false} PendingStays(w: World, w': World)
    requires PendingOk(w) && Outbound(w') == Outbound(w)
    requires Inbound(w) != [] && Inbound(w)[0].Data? && Inbound(w)[1..] == Inbound(w')
    requires WaitingFds(w'.place) == WaitingFds(w.place)
    ensures PendingOk(w')
  {
    hide Asked, EventsOf, Announcements, Latest, WaitingFds, Inbound, Outbound;
    MessageTaken(Inbound(w));
  }

  lemma {:induction false} LatestTaken(msgs: seq<Message>, id: int)
    requires msgs != [] && msgs[0].Data? && msgs[0].id == id
    ensures Announcements(msgs[1..], id) == Announcements(msgs, id)
    ensures Latest(msgs, id) == if Announcements(msgs, id) == 0 then [msgs[0].event] + Latest(msgs[1..], id)
                                else Latest(msgs[1..], id)
  {
    hide EventsOf, Latest;
    MessageTaken(msgs);
    assert [] + Latest(msgs[1..], id) == Latest(msgs[1..], id);
  }

  /** The source end takes the next event, of the newest use of its socket id or an earlier one. */
  lemma {:induction false} SourceView(v: View, v': View, event: Event)
    requires ViewOk(v) && v.routed
    requires v.back == if v.announced == 0 then [event] + v'.back else v'.back
    requires v' == v.(back := v'.back, live := v.live && event.Chunk?, routed := event.Chunk?,
                      givenToSrc := if v.live && event.Chunk? then v.givenToSrc + event.bytes else v.givenToSrc)
    ensures ViewOk(v')
  {
    hide Ordered, HasEnd, BytesOf;
    if v.announced == 0 {
      assert v.back[0] == event && v.back[1..] == v'.back;
      TakeBackKeeps(v);
    } else {
      StaleKeeps(v, event.Chunk?);
    }
  }

  lemma {:induction false} SourceViews(w: World, w': World, id: int, event: Event)
    requires ViewsOk(w) && SameDestination(w, w') && id in w.src.routes
    requires Inbound(w) != [] && Inbound(w)[0] == Data(id, event) && Inbound(w)[1..] == Inbound(w')
    requires w'.givenToSrc == if event.Chunk? && Live(w.src, id) then Longer(w.givenToSrc, id, event) else w.givenToSrc
    requires w'.src.routes.Keys == if event.Chunk? then w.src.routes.Keys else w.src.routes.Keys - {id}
    requires forall other :: Live(w'.src, other) <==> Live(w.src, other) && (other == id ==> event.Chunk?)
    ensures ViewsOk(w')
  {
    hide ViewOk, Live, Asked, EventsOf, Announcements, Latest, Inbound, Outbound, At, Longer;
    MessageTaken(Inbound(w));
    LongerAt(w.givenToSrc, id, event);
    forall other
      ensures ViewOk(ViewOf(w', other))
    {
      assert ViewOk(ViewOf(w, other));
      if other == id {
        LatestTaken(Inbound(w), id);
        SourceView(ViewOf(w, id), ViewOf(w', id), event);
      } else {
        assert ViewOf(w', other) == ViewOf(w, other);
      }
    }
  }
}
