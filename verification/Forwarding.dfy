/** Port forwarding seen from both ends: what the handlers hold, what travels between them,
    and how every step changes it (src/terminal/forwarding/PortForwardHandler.cpp,
    ForwardSourceHandler.cpp, ForwardDestinationHandler.cpp). */
module Forwarding {
  import opened Wire

  /** What a read of an open socket reports: bytes, the end of the stream, or an error. */
  datatype Event = Chunk(bytes: Bytes) | Closed | Failed

  /** A destination request, its response, and data, in either direction. */
  datatype Message =
    | Request(fd: int)
    | Response(fd: int, socketId: Option<int>)
    | Data(id: int, event: Event)

  /** One ForwardSourceHandler: accepted fds still without a socket id, and those with one. */
  datatype Source = Source(unassigned: set<int>, sockets: map<int, int>)

  /** The source handlers of a PortForwardHandler, and which of them each socket id is routed to. */
  datatype SourceEnd = SourceEnd(handlers: seq<Source>, routes: map<int, nat>)

  // ----- the source end -----

  /** The first handler waiting for a socket id for `fd`, or the number of handlers. */
  function WaitingFor(handlers: seq<Source>, fd: int): (i: nat)
    ensures i <= |handlers|
    ensures i < |handlers| ==> fd in handlers[i].unassigned
    ensures forall k :: 0 <= k < i ==> fd !in handlers[k].unassigned
  {
    if handlers == [] || fd in handlers[0].unassigned then 0 else WaitingFor(handlers[1..], fd) + 1
  }

  function Accept(e: SourceEnd, i: nat, fd: int): SourceEnd
    requires i < |e.handlers|
  {
    var h := e.handlers[i];
    e.(handlers := e.handlers[i := h.(unassigned := h.unassigned + {fd})])
  }

  function CloseUnassigned(h: Source, fd: int): Source {
    h.(unassigned := h.unassigned - {fd})
  }

  function AddSocket(h: Source, id: int, fd: int): Source {
    if fd in h.unassigned then Source(h.unassigned - {fd}, h.sockets[id := fd]) else h
  }

  function CloseSocket(h: Source, id: int): Source {
    h.(sockets := h.sockets - {id})
  }

  /** The destination could not be reached. */
  function CloseSourceFd(e: SourceEnd, fd: int): SourceEnd {
    var i := WaitingFor(e.handlers, fd);
    if i < |e.handlers| then e.(handlers := e.handlers[i := CloseUnassigned(e.handlers[i], fd)]) else e
  }

  function AddSourceSocketId(e: SourceEnd, id: int, fd: int): SourceEnd {
    var i := WaitingFor(e.handlers, fd);
    if i < |e.handlers| then
      SourceEnd(e.handlers[i := AddSocket(e.handlers[i], id, fd)], e.routes[id := i])
    else e
  }

  function CloseSourceSocketId(e: SourceEnd, id: int): SourceEnd {
    if id in e.routes && e.routes[id] < |e.handlers| then
      var i := e.routes[id];
      SourceEnd(e.handlers[i := CloseSocket(e.handlers[i], id)], e.routes - {id})
    else e
  }

  /** A read found the socket ended; its route stays. */
  function SourceEnded(e: SourceEnd, i: nat, id: int): SourceEnd
    requires i < |e.handlers|
  {
    e.(handlers := e.handlers[i := CloseSocket(e.handlers[i], id)])
  }

  predicate Live(e: SourceEnd, id: int) {
    id in e.routes && e.routes[id] < |e.handlers| && id in e.handlers[e.routes[id]].sockets
  }

  function FdOf(e: SourceEnd, id: int): int
    requires Live(e, id)
  {
    e.handlers[e.routes[id]].sockets[id]
  }

  // ----- the two ends and the packets between them -----

  /** Where an open fd of the source end is held. */
  datatype Place = Waiting(handler: nat) | Mapped(handler: nat, id: int)

  /** `requests` and `data` are what one `update` has gathered and not yet sent; `place` holds
      the fds the operating system has open at the source end. The rest is history: `client` has
      the fd each socket id was last drawn for, and since that draw the bytes read from the socket
      at one end and handed to the socket at the other, for the socket of that fd alone. */
  datatype World = World(
    src: SourceEnd, place: map<int, Place>, requests: seq<Message>, data: seq<Message>,
    dst: map<int, int>, dstOpen: set<int>, dstData: seq<Message>,
    toDst: seq<Message>, toSrc: seq<Message>,
    client: map<int, int>,
    readAtSrc: map<int, Bytes>, givenToDst: map<int, Bytes>,
    readAtDst: map<int, Bytes>, givenToSrc: map<int, Bytes>)

  /** `connected` and `drawn` are what `connect` and the random draws give a request; no id is
      left when all draws were taken. */
  datatype Step =
    | Accepts(handler: nat, fd: int)
    | ReadsSource(handler: nat, id: int, event: Event)
    | SendsSource
    | ReadsDestination(id: int, event: Event)
    | SendsDestination
    | HandlesAtDestination(connected: Option<int>, drawn: Option<int>)
    | HandlesAtSource

  function At(m: map<int, Bytes>, id: int): Bytes {
    if id in m then m[id] else []
  }

  function Longer(m: map<int, Bytes>, id: int, event: Event): map<int, Bytes> {
    if event.Chunk? then m[id := At(m, id) + event.bytes] else m
  }

  /** The socket id was last drawn for this fd. */
  predicate Partner(w: World, id: int, fd: int) {
    id in w.client && w.client[id] == fd
  }

  /** A draw starts the histories of its socket id over. */
  function Forget(w: World, id: int): World {
    w.(readAtSrc := w.readAtSrc - {id}, givenToDst := w.givenToDst - {id},
       readAtDst := w.readAtDst - {id}, givenToSrc := w.givenToSrc - {id})
  }

  /** The operating system hands out no fd that is open, and a read that is no end has bytes;
      a socket id is drawn that no destination handler has; an end handles no packet between
      gathering and sending. */
  predicate Can(w: World, step: Step) {
    match step
    case Accepts(i, fd) => i < |w.src.handlers| && fd >= 0 && fd !in w.place
    case ReadsSource(i, id, event) =>
      i < |w.src.handlers| && id in w.src.handlers[i].sockets && (event.Chunk? ==> event.bytes != [])
    case SendsSource => true
    case ReadsDestination(id, event) => id in w.dst && (event.Chunk? ==> event.bytes != [])
    case SendsDestination => true
    case HandlesAtDestination(connected, drawn) =>
      && w.toDst != [] && w.dstData == []
      && (connected.Some? ==> connected.value >= 0 && connected.value !in w.dstOpen)
      && (drawn.Some? ==> drawn.value !in w.dst)
    case HandlesAtSource => w.toSrc != [] && w.requests == [] && w.data == []
  }

  function Next(w: World, step: Step): World
    requires Can(w, step)
  {
    match step
    case Accepts(i, fd) =>
      w.(src := Accept(w.src, i, fd), place := w.place[fd := Waiting(i)], requests := w.requests + [Request(fd)])
    case ReadsSource(i, id, event) =>
      var w' := w.(data := w.data + [Data(id, event)],
                   readAtSrc := if Partner(w, id, w.src.handlers[i].sockets[id]) then Longer(w.readAtSrc, id, event)
                                else w.readAtSrc);
      if event.Chunk? then w'
      else w'.(src := SourceEnded(w.src, i, id), place := w.place - {w.src.handlers[i].sockets[id]})
    case SendsSource => w.(toDst := w.toDst + w.requests + w.data, requests := [], data := [])
    case ReadsDestination(id, event) =>
      var w' := w.(dstData := w.dstData + [Data(id, event)], readAtDst := Longer(w.readAtDst, id, event));
      if event.Chunk? then w' else w'.(dst := w.dst - {id}, dstOpen := w.dstOpen - {w.dst[id]})
    case SendsDestination => w.(toSrc := w.toSrc + w.dstData, dstData := [])
    case HandlesAtDestination(connected, drawn) => HandleAtDestination(w, w.toDst[0], connected, drawn)
    case HandlesAtSource => HandleAtSource(w, w.toSrc[0])
  }

  function HandleAtDestination(w: World, m: Message, connected: Option<int>, drawn: Option<int>): World
    requires w.toDst != []
  {
    var w' := w.(toDst := w.toDst[1..]);
    match m
    case Request(fd) =>
      if connected.None? then w'.(toSrc := w.toSrc + [Response(fd, None)])
      else if drawn.None? then
        // the fd just connected is not closed
        w'.(toSrc := w.toSrc + [Response(fd, None)], dstOpen := w.dstOpen + {connected.value})
      else
        Forget(w', drawn.value).(
          toSrc := w.toSrc + [Response(fd, drawn)], dstOpen := w.dstOpen + {connected.value},
          dst := w.dst[drawn.value := connected.value], client := w.client[drawn.value := fd])
    case Response(_, _) => w'
    case Data(id, event) =>
      if id !in w.dst then w'
      else if event.Chunk? then w'.(givenToDst := Longer(w.givenToDst, id, event))
      else w'.(dst := w.dst - {id}, dstOpen := w.dstOpen - {w.dst[id]})
  }

  function HandleAtSource(w: World, m: Message): World
    requires w.toSrc != []
  {
    var w' := w.(toSrc := w.toSrc[1..]);
    match m
    case Request(_) => w'
    case Response(fd, None) => w'.(src := CloseSourceFd(w.src, fd), place := w.place - {fd})
    case Response(fd, Some(id)) =>
      var i := WaitingFor(w.src.handlers, fd);
      w'.(src := AddSourceSocketId(w.src, id, fd),
          place := if i < |w.src.handlers| then w.place[fd := Mapped(i, id)] else w.place)
    case Data(id, event) =>
      if event.Chunk? then
        if Live(w.src, id) && Partner(w, id, FdOf(w.src, id)) then
          w'.(givenToSrc := Longer(w.givenToSrc, id, event))
        else w'
      else
        w'.(src := CloseSourceSocketId(w.src, id),
            place := if Live(w.src, id) then w.place - {FdOf(w.src, id)} else w.place)
  }

  ghost predicate Runs(steps: seq<Step>, w: World, w': World)
    decreases |steps|
  {
    if steps == [] then w == w'
    else Can(w, steps[0]) && Runs(steps[1..], Next(w, steps[0]), w')
  }

  lemma {:induction false} OneStepFirst(step: Step, steps: seq<Step>, w: World, w': World)
    requires Can(w, step) && Runs(steps, Next(w, step), w')
    ensures Runs([step] + steps, w, w')
  {
    hide Can, Next;
    assert ([step] + steps)[1..] == steps;
  }

  lemma {:induction false} RunsInTurn(a: seq<Step>, b: seq<Step>, w: World, w1: World, w2: World)
    requires Runs(a, w, w1) && Runs(b, w1, w2)
    ensures Runs(a + b, w, w2)
    decreases |a|
  {
    hide Can, Next;
    if a == [] {
      assert a + b == b;
    } else {
      assert (a + b)[1..] == a[1..] + b;
      RunsInTurn(a[1..], b, Next(w, a[0]), w1, w2);
    }
  }

  // ----- draws that do no harm -----

  /** The socket id a step opens a destination socket with. */
  function Draws(w: World, step: Step): Option<int>
    requires Can(w, step)
  {
    if step.HandlesAtDestination? && w.toDst[0].Request? && step.connected.Some? then step.drawn else None
  }

  /** Nothing is left of an earlier use of the socket id: no socket at the source end, no
      announcement on its way there, and no event on its way to the destination end. */
  predicate Free(w: World, id: int) {
    !Live(w.src, id) && Announcements(Inbound(w), id) == 0 && EventsOf(Outbound(w), id) == []
  }

  predicate Careful(w: World, step: Step)
    requires Can(w, step)
  {
    Draws(w, step).Some? ==> Free(w, Draws(w, step).value)
  }

  /** A run whose every draw is of a free socket id. */
  ghost predicate CarefulRun(steps: seq<Step>, w: World, w': World)
    decreases |steps|
  {
    if steps == [] then w == w'
    else Can(w, steps[0]) && Careful(w, steps[0]) && CarefulRun(steps[1..], Next(w, steps[0]), w')
  }

  lemma {:induction false} CarefulStepFirst(step: Step, steps: seq<Step>, w: World, w': World)
    requires Can(w, step) && Careful(w, step) && CarefulRun(steps, Next(w, step), w')
    ensures CarefulRun([step] + steps, w, w')
  {
    hide Can, Next, Careful;
    assert ([step] + steps)[1..] == steps;
  }

  lemma {:induction false} CarefulRunsInTurn(a: seq<Step>, b: seq<Step>, w: World, w1: World, w2: World)
    requires CarefulRun(a, w, w1) && CarefulRun(b, w1, w2)
    ensures CarefulRun(a + b, w, w2)
    decreases |a|
  {
    hide Can, Next, Careful;
    if a == [] {
      assert a + b == b;
    } else {
      assert (a + b)[1..] == a[1..] + b;
      CarefulRunsInTurn(a[1..], b, Next(w, a[0]), w1, w2);
    }
  }

  lemma {:induction false} CarefulRunsAreRuns(steps: seq<Step>, w: World, w': World)
    requires CarefulRun(steps, w, w')
    ensures Runs(steps, w, w')
    decreases |steps|
  {
    hide Can, Next, Careful;
    if steps != [] {
      CarefulRunsAreRuns(steps[1..], Next(w, steps[0]), w');
    }
  }

  function Start(handlers: nat): World {
    World(SourceEnd(seq(handlers, _ => Source({}, map[])), map[]), map[], [], [], map[], {}, [], [], [],
          map[], map[], map[], map[], map[])
  }

  // ----- what is in flight -----

  /** Everything on its way to the destination end, in the order it will arrive. */
  function Outbound(w: World): seq<Message> {
    w.toDst + w.requests + w.data
  }

  function Inbound(w: World): seq<Message> {
    w.toSrc + w.dstData
  }

  /** The fds asked about, one for each request or response. */
  function Asked(msgs: seq<Message>): seq<int> {
    if msgs == [] then []
    else (if msgs[0].Data? then [] else [msgs[0].fd]) + Asked(msgs[1..])
  }

  /** The events of one socket id. */
  function EventsOf(msgs: seq<Message>, id: int): seq<Event> {
    if msgs == [] then []
    else (if msgs[0].Data? && msgs[0].id == id then [msgs[0].event] else []) + EventsOf(msgs[1..], id)
  }

  /** How often a socket id is announced. */
  function Announcements(msgs: seq<Message>, id: int): nat {
    if msgs == [] then 0
    else (if Announces(msgs[0], id) then 1 else 0) + Announcements(msgs[1..], id)
  }

  predicate Announces(m: Message, id: int) {
    m.Response? && m.socketId == Some(id)
  }

  /** The events of a socket id that follow its last announcement, or all of them if it is
      not announced. */
  function Latest(msgs: seq<Message>, id: int): seq<Event> {
    if msgs == [] then []
    else if Announcements(msgs[1..], id) > 0 then Latest(msgs[1..], id)
    else if Announces(msgs[0], id) then EventsOf(msgs[1..], id)
    else EventsOf(msgs, id)
  }

  function BytesOf(events: seq<Event>): Bytes {
    if events == [] then [] else (if events[0].Chunk? then events[0].bytes else []) + BytesOf(events[1..])
  }

  /** Nothing follows the end of a stream. */
  predicate Ordered(events: seq<Event>) {
    forall k :: 0 <= k < |events| - 1 ==> events[k].Chunk?
  }

  predicate HasEnd(events: seq<Event>) {
    exists k :: 0 <= k < |events| && !events[k].Chunk?
  }

  lemma {:induction false} AskedConcat(a: seq<Message>, b: seq<Message>)
    ensures Asked(a + b) == Asked(a) + Asked(b)
  {
    if a == [] {
      assert a + b == b;
    } else {
      assert (a + b)[1..] == a[1..] + b;
      AskedConcat(a[1..], b);
    }
  }

  lemma {:induction false} EventsConcat(a: seq<Message>, b: seq<Message>, id: int)
    ensures EventsOf(a + b, id) == EventsOf(a, id) + EventsOf(b, id)
    ensures Announcements(a + b, id) == Announcements(a, id) + Announcements(b, id)
  {
    if a == [] {
      assert a + b == b;
    } else {
      assert (a + b)[1..] == a[1..] + b;
      EventsConcat(a[1..], b, id);
    }
  }

  lemma {:induction false} LatestIsAll(msgs: seq<Message>, id: int)
    requires Announcements(msgs, id) == 0
    ensures Latest(msgs, id) == EventsOf(msgs, id)
  {
  }

  lemma {:induction false} LatestAdded(a: seq<Message>, m: Message, id: int)
    ensures Latest(a + [m], id) == if Announces(m, id) then [] else Latest(a, id) + EventsOf([m], id)
  {
    assert [m][1..] == [];
    if a == [] {
      assert a + [m] == [m];
    } else {
      assert (a + [m])[1..] == a[1..] + [m];
      LatestAdded(a[1..], m, id);
      EventsConcat(a[1..], [m], id);
      EventsConcat(a, [m], id);
    }
  }

  lemma {:induction false} BytesConcat(a: seq<Event>, b: seq<Event>)
    ensures BytesOf(a + b) == BytesOf(a) + BytesOf(b)
  {
    if a == [] {
      assert a + b == b;
    } else {
      assert (a + b)[1..] == a[1..] + b;
      BytesConcat(a[1..], b);
    }
  }

  /** The socket ids the source end has a route for once it has handled `m`. */
  function Knows(known: set<int>, m: Message): set<int> {
    match m
    case Request(_) => known
    case Response(_, None) => known
    case Response(_, Some(id)) => known + {id}
    case Data(id, event) => if event.Chunk? then known else known - {id}
  }

  function KnownAfter(known: set<int>, msgs: seq<Message>): set<int>
    decreases |msgs|
  {
    if msgs == [] then known else KnownAfter(Knows(known, msgs[0]), msgs[1..])
  }

  predicate Follows(known: set<int>, m: Message) {
    match m
    case Request(_) => false
    case Response(_, None) => true
    case Response(_, Some(_)) => true
    case Data(id, _) => id in known
  }

  /** Data only comes for socket ids announced before it and not ended since. */
  predicate Announced(known: set<int>, msgs: seq<Message>)
    decreases |msgs|
  {
    msgs == [] || (Follows(known, msgs[0]) && Announced(Knows(known, msgs[0]), msgs[1..]))
  }

  lemma {:induction false} AnnouncedConcat(known: set<int>, a: seq<Message>, b: seq<Message>)
    ensures KnownAfter(known, a + b) == KnownAfter(KnownAfter(known, a), b)
    ensures Announced(known, a + b) <==> Announced(known, a) && Announced(KnownAfter(known, a), b)
    decreases |a|
  {
    if a == [] {
      assert a + b == b;
    } else {
      assert (a + b)[1..] == a[1..] + b;
      AnnouncedConcat(Knows(known, a[0]), a[1..], b);
    }
  }
}
