/** The file descriptors of the destination end (src/terminal/forwarding/PortForwardHandler.cpp,
    src/terminal/forwarding/ForwardDestinationHandler.cpp). */
module ForwardingDestinations {
  import opened Wire
  import opened Forwarding
  import opened ForwardingProof

  function Fds(dst: map<int, int>): set<int> {
    set id | id in dst :: dst[id]
  }

  /** The fd a step connects and then has no socket id for. */
  function Leak(w: World, step: Step): set<int>
    requires Can(w, step)
  {
    if step.HandlesAtDestination? && w.toDst[0].Request? && step.connected.Some? && step.drawn.None?
    then {step.connected.value} else {}
  }

  ghost function Leaked(steps: seq<Step>, w: World): set<int>
    decreases |steps|
  {
    if steps == [] || !Can(w, steps[0]) then {}
    else Leak(w, steps[0]) + Leaked(steps[1..], Next(w, steps[0]))
  }

  /** No request of the run connects and then finds no free socket id. */
  ghost predicate AlwaysFindsAnId(steps: seq<Step>, w: World)
    decreases |steps|
  {
    steps == [] || !Can(w, steps[0]) || (Leak(w, steps[0]) == {} && AlwaysFindsAnId(steps[1..], Next(w, steps[0])))
  }

  lemma {:induction false} NothingLeakedIff(steps: seq<Step>, w: World)
    ensures Leaked(steps, w) == {} <==> AlwaysFindsAnId(steps, w)
    decreases |steps|
  {
    hide Can, Next, Leak;
    if steps != [] && Can(w, steps[0]) {
      NothingLeakedIff(steps[1..], Next(w, steps[0]));
    }
  }

  /** The open fds are those of the handlers, one each, and those that leaked. */
  ghost predicate DestinationsOk(dst: map<int, int>, open: set<int>, leaked: set<int>) {
    && open == Fds(dst) + leaked && Fds(dst) !! leaked
    && (forall id1, id2 :: id1 in dst && id2 in dst && dst[id1] == dst[id2] ==> id1 == id2)
  }

  ghost predicate HandlerGone(w: World, w': World, id: int) {
    id in w.dst && w'.dst == w.dst - {id} && w'.dstOpen == w.dstOpen - {w.dst[id]}
  }

  ghost predicate HandlerAdded(w: World, w': World, id: int, fd: int) {
    id !in w.dst && fd !in w.dstOpen && w'.dst == w.dst[id := fd] && w'.dstOpen == w.dstOpen + {fd}
  }

  /** What a step may do to the destination sockets; `leak` is what it leaks. */
  ghost predicate DestinationStep(w: World, w': World, leak: set<int>) {
    || (w'.dst == w.dst && w'.dstOpen == w.dstOpen + leak && leak !! w.dstOpen)
    || (leak == {} && exists id :: HandlerGone(w, w', id))
    || (leak == {} && exists id, fd :: HandlerAdded(w, w', id, fd))
  }

  lemma {:induction false} DestinationsKept(w: World, w': World, leak: set<int>, leaked: set<int>)
    requires DestinationsOk(w.dst, w.dstOpen, leaked) && DestinationStep(w, w', leak)
    ensures DestinationsOk(w'.dst, w'.dstOpen, leaked + leak)
  {
    hide Fds;
    if id :| HandlerGone(w, w', id) {
      FdGone(w.dst, id);
    } else if id, fd :| HandlerAdded(w, w', id, fd) {
      FdComes(w.dst, id, fd);
    }
  }

  lemma {:induction false} FdGone(dst: map<int, int>, id: int)
    requires id in dst && forall id1, id2 :: id1 in dst && id2 in dst && dst[id1] == dst[id2] ==> id1 == id2
    ensures Fds(dst - {id}) == Fds(dst) - {dst[id]} && dst[id] in Fds(dst)
  {
    forall fd
      ensures fd in Fds(dst - {id}) <==> fd in Fds(dst) - {dst[id]}
    {
      if fd in Fds(dst) - {dst[id]} {
        var other :| other in dst && dst[other] == fd;
        assert other in dst - {id} && (dst - {id})[other] == fd;
      }
    }
  }

  lemma {:induction false} FdComes(dst: map<int, int>, id: int, fd: int)
    requires id !in dst
    ensures Fds(dst[id := fd]) == Fds(dst) + {fd}
    ensures forall other :: other in dst ==> dst[other] in Fds(dst)
  {
    var more := dst[id := fd];
    forall f
      ensures f in Fds(more) <==> f in Fds(dst) + {fd}
    {
      if f in Fds(dst) {
        var other :| other in dst && dst[other] == f;
        assert more[other] == f;
      }
      if f == fd {
        assert more[id] == f;
      }
    }
  }

  lemma {:induction false} NextIsDestinationStep(w: World, step: Step)
    requires Can(w, step)
    ensures DestinationStep(w, Next(w, step), Leak(w, step))
  {
    hide Longer, Live, HandleAtSource, HandleAtDestination, Accept, SourceEnded;
    var w' := Next(w, step);
    match step
    case ReadsDestination(id, event) =>
      assert event.Chunk? || HandlerGone(w, w', id);
    case HandlesAtDestination(connected, drawn) =>
      HandlingIsDestinationStep(w, connected, drawn);
    case HandlesAtSource =>
      HandlingAtSourceLeavesDestination(w);
    case Accepts(i, fd) => assert w'.dst == w.dst && w'.dstOpen == w.dstOpen;
    case ReadsSource(i, id, event) => SourceReadLeavesDestination(w, i, id, event);
    case SendsSource => assert w'.dst == w.dst && w'.dstOpen == w.dstOpen;
    case SendsDestination => assert w'.dst == w.dst && w'.dstOpen == w.dstOpen;
  }

  lemma {:induction false} SourceReadLeavesDestination(w: World, i: nat, id: int, event: Event)
    requires Can(w, ReadsSource(i, id, event))
    ensures var w' := Next(w, ReadsSource(i, id, event));
            w'.dst == w.dst && w'.dstOpen == w.dstOpen
  {
    hide Longer, SourceEnded, HandleAtSource, HandleAtDestination;
  }

  lemma {:induction false} HandlingAtSourceLeavesDestination(w: World)
    requires Can(w, HandlesAtSource)
    ensures Next(w, HandlesAtSource).dst == w.dst && Next(w, HandlesAtSource).dstOpen == w.dstOpen
  {
    hide Longer, Live, FdOf, CloseSourceFd, AddSourceSocketId, CloseSourceSocketId, WaitingFor, Next;
    match w.toSrc[0]
    case Request(_) => RequestIgnored(w);
    case Response(_, None) => ErrorEffect(w);
    case Response(_, Some(_)) => MapEffect(w);
    case Data(_, _) => SourceDataEffect(w);
  }

  lemma {:induction false} RequestIgnored(w: World)
    requires Can(w, HandlesAtSource) && w.toSrc[0].Request?
    ensures Next(w, HandlesAtSource).dst == w.dst && Next(w, HandlesAtSource).dstOpen == w.dstOpen
  {
  }

  lemma {:induction false} HandlingIsDestinationStep(w: World, connected: Option<int>, drawn: Option<int>)
    requires Can(w, HandlesAtDestination(connected, drawn))
    ensures DestinationStep(w, HandleAtDestination(w, w.toDst[0], connected, drawn),
                            Leak(w, HandlesAtDestination(connected, drawn)))
  {
    hide Longer;
    var m, w' := w.toDst[0], HandleAtDestination(w, w.toDst[0], connected, drawn);
    match m
    case Request(fd) =>
      if connected.Some? && drawn.Some? {
        assert HandlerAdded(w, w', drawn.value, connected.value);
      }
    case Response(_, _) =>
    case Data(id, event) =>
      if id in w.dst && !event.Chunk? {
        assert HandlerGone(w, w', id);
      }
  }

  lemma {:induction false} DestinationsRun(steps: seq<Step>, w: World, w': World, leaked: set<int>)
    requires DestinationsOk(w.dst, w.dstOpen, leaked) && Runs(steps, w, w')
    ensures DestinationsOk(w'.dst, w'.dstOpen, leaked + Leaked(steps, w))
    decreases |steps|
  {
    hide DestinationsOk, DestinationStep, Next, Can, Leak;
    if steps == [] {
      assert leaked + {} == leaked;
    } else {
      var w1, leak := Next(w, steps[0]), Leak(w, steps[0]);
      NextIsDestinationStep(w, steps[0]);
      DestinationsKept(w, w1, leak, leaked);
      DestinationsRun(steps[1..], w1, w', leaked + leak);
      assert leaked + leak + Leaked(steps[1..], w1) == leaked + (leak + Leaked(steps[1..], w1));
    }
  }

  /** The open fds at the destination end are those of the handlers, each in one handler, and
      those that leaked: they are exactly the handlers' if and only if every request of the run
      that connected found a free socket id. */
  lemma {:induction false} DestinationFdsAreConserved(handlers: nat, steps: seq<Step>, w: World)
    requires Runs(steps, Start(handlers), w)
    ensures w.dstOpen == Fds(w.dst) + Leaked(steps, Start(handlers)) && Fds(w.dst) !! Leaked(steps, Start(handlers))
    ensures w.dstOpen == Fds(w.dst) <==> AlwaysFindsAnId(steps, Start(handlers))
    ensures forall id :: id in w.dst ==> w.dst[id] in w.dstOpen
    ensures forall id1, id2 :: id1 in w.dst && id2 in w.dst && w.dst[id1] == w.dst[id2] ==> id1 == id2
  {
    hide Leaked, Runs, AlwaysFindsAnId;
    var w0, leaked := Start(handlers), Leaked(steps, Start(handlers));
    assert Fds(w0.dst) == {};
    DestinationsRun(steps, w0, w, {});
    assert {} + leaked == leaked;
    NothingLeakedIff(steps, w0);
  }
}
