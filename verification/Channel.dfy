/** The two ends of a connection, the sockets between them, and everything that can happen
    to them: writes, short reads, broken sockets, and recoveries that stop half way on
    either side (src/base/Connection.cpp, src/base/ClientConnection.cpp,
    src/base/ServerClientConnection.cpp). */
module Channel {
  import opened Wire
  import opened Crypto
  import opened Sockets
  import opened BackedWriters
  import opened BackedReaders
  import opened Connections

  datatype Role = Client | Server

  /** Where an end stands in `recover`. It keeps its locks throughout, so no read or
      write of its own falls in between. */
  datatype Phase = Idle | HeaderSent(socket: nat) | CatchupSent(socket: nat)

  /** `used` is history: the sockets this end has taken up so far. */
  datatype Side = Side(end: End, phase: Phase, used: set<nat>, fatal: bool)

  /** One direction of one socket, a FIFO whose receiver has taken `taken` messages and
      then `read` bytes. `base` is history: how many packets the sender had accepted when
      it sent its catch-up, which is where its frames on this socket start. */
  datatype Pipe = Pipe(messages: seq<Message>, data: Bytes, taken: nat, read: nat, base: nat)

  datatype World = World(client: Side, server: Side, up: map<nat, Pipe>, down: map<nat, Pipe>)

  datatype Move =
    | Write(packet: Packet, writeScript: Script)
    | Read(readScript: Script)
    | Close
    | Begin(socket: nat)
    | Answer
    | Finish
    | Abort

  datatype Action = Offer(socket: nat) | Act(role: Role, move: Move)

  /** What one end sees: itself, the pipes it sends on and the pipes it receives on. */
  datatype View = View(me: Side, out: map<nat, Pipe>, inn: map<nat, Pipe>)

  const EMPTY_PIPE := Pipe([], [], 0, 0, 0)

  function Fail(v: View): View {
    v.(me := v.me.(fatal := true))
  }

  /** Packet lengths and sequence numbers stay within the 32-bit fields that carry them. */
  predicate Fits(w: Writer, p: Packet) {
    p.Length() + MAC_BYTES < TWO_TO_THE_31 && |w.log| + 1 < TWO_TO_THE_31
  }

  function DoWrite(c: Cipher, v: View, p: Packet, script: Script): View {
    var s := v.me.end.socketFd;
    var (end, bytes, _) := EndWrite(c, v.me.end, p, script);
    if !v.me.phase.Idle? || p.encrypted || !Fits(v.me.end.writer, p) then v
    else if s < 0 then v.(me := v.me.(end := end))
    else if s !in v.out then v
    else v.(me := v.me.(end := end), out := v.out[s := v.out[s].(data := v.out[s].data + bytes)])
  }

  /** A read that starts where handshake messages still lie would take them for frames. */
  function DoRead(c: Cipher, v: View, script: Script): View {
    var s := v.me.end.socketFd;
    if !v.me.phase.Idle? || s < 0 || s !in v.inn || v.inn[s].read > |v.inn[s].data| then v
    else if v.inn[s].taken < |v.inn[s].messages| then Fail(v)
    else
      var pipe := v.inn[s];
      var (end, rest, result) := EndRead(c, v.me.end, SocketState(pipe.data[pipe.read..], script));
      if result.Fatal? || |rest.incoming| > |pipe.data| then Fail(v)
      else v.(me := v.me.(end := end),
              inn := v.inn[s := pipe.(read := |pipe.data| - |rest.incoming|)])
  }

  function DoClose(v: View): View {
    if v.me.phase.Idle? then v.(me := v.me.(end := Closed(v.me.end))) else v
  }

  /** The client only reconnects when it is disconnected; the server drops its old socket
      first. Then the sequence header goes out on the new socket. */
  function DoBegin(v: View, role: Role, s: nat): View {
    if !v.me.phase.Idle? || s in v.me.used || s !in v.out then v
    else if role.Client? && v.me.end.socketFd != -1 then v
    else
      var end := Closed(v.me.end);
      v.(me := v.me.(end := end, phase := HeaderSent(s), used := v.me.used + {s}),
         out := v.out[s := v.out[s].(messages := v.out[s].messages + [HeaderOf(end)])])
  }

  /** The peer's header arrives and is answered with a catch-up. */
  function DoAnswer(v: View): View {
    if !v.me.phase.HeaderSent? then v
    else
      var s := v.me.phase.socket;
      if s !in v.inn || s !in v.out then v
      else
        var pipe := v.inn[s];
        if pipe.taken >= |pipe.messages| then
          (if pipe.data == [] then v else Fail(v))
        else if !pipe.messages[pipe.taken].Header? then Fail(v)
        else
          var writer := v.me.end.writer;
          match Recovered(writer, pipe.messages[pipe.taken].sequenceNumber)
          case AheadOfWriter => Fail(v)
          case Entries(entries) =>
            var sent := v.out[s].(messages := v.out[s].messages + [Catchup(entries)], base := |writer.log|);
            View(v.me.(phase := CatchupSent(s)), v.out[s := sent],
                 v.inn[s := pipe.(taken := pipe.taken + 1)])
          case _ => v.(me := v.me.(phase := Idle))
  }

  /** The peer's catch-up arrives and the new socket takes over. */
  function DoFinish(v: View): View {
    if !v.me.phase.CatchupSent? then v
    else
      var s := v.me.phase.socket;
      if s !in v.inn then v
      else
        var pipe := v.inn[s];
        if pipe.taken >= |pipe.messages| then
          (if pipe.data == [] then v else Fail(v))
        else if !pipe.messages[pipe.taken].Catchup? then Fail(v)
        else
          var end := EndRevived(v.me.end, s, pipe.messages[pipe.taken].entries);
          v.(me := v.me.(end := end, phase := Idle),
             inn := v.inn[s := pipe.(taken := pipe.taken + 1)])
  }

  /** A handshake may be given up at any point; the new socket is closed. */
  function DoAbort(v: View): View {
    v.(me := v.me.(phase := Idle))
  }

  function Moved(c: Cipher, v: View, role: Role, move: Move): View {
    if v.me.fatal then v
    else match move
      case Write(p, script) => DoWrite(c, v, p, script)
      case Read(script) => DoRead(c, v, script)
      case Close => DoClose(v)
      case Begin(s) => DoBegin(v, role, s)
      case Answer => DoAnswer(v)
      case Finish => DoFinish(v)
      case Abort => DoAbort(v)
  }

  /** A step of the whole system; an action that is not possible changes nothing. */
  function Step(c: Cipher, w: World, a: Action): World {
    match a
    case Offer(s) =>
      if s in w.up || s in w.down then w
      else w.(up := w.up[s := EMPTY_PIPE], down := w.down[s := EMPTY_PIPE])
    case Act(Client, move) =>
      var v := Moved(c, View(w.client, w.up, w.down), Client, move);
      World(v.me, w.server, v.out, v.inn)
    case Act(Server, move) =>
      var v := Moved(c, View(w.server, w.down, w.up), Server, move);
      World(w.client, v.me, v.inn, v.out)
  }

  function Run(c: Cipher, w: World, actions: seq<Action>): World {
    if actions == [] then w
    else Step(c, Run(c, w, actions[..|actions| - 1]), actions[|actions| - 1])
  }

  function InitialSide(sending: Byte, receiving: Byte): Side {
    Side(End(InitialWriter(0, InitialNonce(sending)), InitialReader(0, InitialNonce(receiving)), 0),
         Idle, {0}, false)
  }

  /** Right after the connection of a new client: both ends hold socket 0. */
  function Start(): World {
    World(InitialSide(CLIENT_SERVER_NONCE_MSB, SERVER_CLIENT_NONCE_MSB),
          InitialSide(SERVER_CLIENT_NONCE_MSB, CLIENT_SERVER_NONCE_MSB),
          map[0 := EMPTY_PIPE], map[0 := EMPTY_PIPE])
  }

  // ----- the invariant -----

  ghost predicate SideInv(c: Cipher, start: Bytes, x: Side, sockets: set<nat>) {
    && EndInv(c, start, x.end)
    && LengthsFit(x.end.writer.sealed) && |x.end.writer.log| < TWO_TO_THE_31
    && !x.fatal
    && 0 in x.used && x.used <= sockets
    && (x.end.socketFd >= 0 ==> x.end.socketFd in x.used && x.phase.Idle?)
    && (!x.phase.Idle? ==> x.phase.socket in x.used)
  }

  /** The shape of what one end has sent on a socket. */
  ghost predicate Shape(x: Side, y: Side, s: nat, xy: Pipe) {
    && xy.taken <= |xy.messages| <= 2 && xy.read <= |xy.data| && xy.base <= |x.end.writer.sealed|
    && (s == 0 ==> xy.messages == [])
    && (s !in x.used ==> xy.messages == [] && xy.data == [])
    && (s !in y.used ==> xy.taken == 0 && xy.read == 0)
    && (xy.data != [] ==> s == 0 || |xy.messages| == 2)
  }

  /** A header never claims more than its sender has read, and a catch-up holds exactly
      the packets from the peer's claim up to the base. */
  ghost predicate MessagesInv(x: Side, xy: Pipe, yx: Pipe)
    requires xy.base <= |x.end.writer.sealed|
  {
    && (|xy.messages| >= 1 ==>
          xy.messages[0].Header? && 0 <= xy.messages[0].sequenceNumber <= x.end.reader.sequenceNumber)
    && (|xy.messages| >= 2 ==>
          && |yx.messages| >= 1 && yx.messages[0].Header?
          && 0 <= yx.messages[0].sequenceNumber <= xy.base
          && xy.messages[1] ==
             Catchup(SerializedAll(x.end.writer.sealed[yx.messages[0].sequenceNumber..xy.base])))
  }

  /** The sender's side of a socket: frames start at the base, and as long as the sender
      is on the socket none is missing. */
  ghost predicate SenderInv(x: Side, s: nat, xy: Pipe)
    requires xy.base <= |x.end.writer.sealed|
  {
    && (x.phase == HeaderSent(s) || x.phase == CatchupSent(s) ==>
          && |xy.messages| == (if x.phase.HeaderSent? then 1 else 2)
          && xy.messages[0] == Header(x.end.reader.sequenceNumber)
          && xy.data == [])
    && (x.phase == CatchupSent(s) ==> xy.base == |x.end.writer.sealed|)
    && xy.data <= Frames(x.end.writer.sealed[xy.base..])
    && (x.end.socketFd == s ==>
          xy.data == Frames(x.end.writer.sealed[xy.base..]) && (s == 0 || |xy.messages| == 2))
  }

  /** The receiver's side of a socket: what it has read is whole frames from the base up
      to its sequence number, and then its partial message. */
  ghost predicate ReceiverInv(x: Side, y: Side, s: nat, xy: Pipe)
    requires xy.base <= |x.end.writer.sealed| && xy.read <= |xy.data|
    requires y.end.reader.sequenceNumber <= |x.end.writer.sealed|
  {
    var r := y.end.reader;
    var sealed := x.end.writer.sealed;
    && (y.phase == HeaderSent(s) ==> xy.taken == 0 && xy.read == 0)
    && (y.phase == CatchupSent(s) ==> xy.taken == 1 && xy.read == 0)
    && (y.end.socketFd == s ==>
          && xy.taken == |xy.messages| && (s == 0 || |xy.messages| == 2)
          && xy.base <= r.sequenceNumber
          && Frames(sealed[xy.base..r.sequenceNumber]) + r.partial == xy.data[..xy.read]
          && (if r.sequenceNumber == |sealed| then r.partial == []
              else |r.partial| < |Frame(sealed[r.sequenceNumber])|))
  }

  ghost predicate PipeInv(x: Side, y: Side, s: nat, xy: Pipe, yx: Pipe)
    requires y.end.reader.sequenceNumber <= |x.end.writer.sealed|
  {
    && Shape(x, y, s, xy)
    && MessagesInv(x, xy, yx)
    && SenderInv(x, s, xy)
    && ReceiverInv(x, y, s, xy)
  }

  /** The direction from `x` to `y`. */
  ghost predicate DirectionInv(start: Bytes, x: Side, y: Side, xy: map<nat, Pipe>, yx: map<nat, Pipe>) {
    && xy.Keys == yx.Keys
    && |x.end.writer.sealed| == |x.end.writer.log|
    && ReaderInv(start, y.end.reader, x.end.writer.log, x.end.writer.sealed)
    && forall s :: s in xy ==> PipeInv(x, y, s, xy[s], yx[s])
  }

  /** Both directions, from the point of view of one end. */
  ghost predicate PairInv(c: Cipher, mine: Bytes, theirs: Bytes, v: View, peer: Side) {
    && SideInv(c, mine, v.me, v.out.Keys)
    && SideInv(c, theirs, peer, v.out.Keys)
    && DirectionInv(mine, v.me, peer, v.out, v.inn)
    && DirectionInv(theirs, peer, v.me, v.inn, v.out)
  }

  ghost predicate WorldInv(c: Cipher, w: World) {
    PairInv(c, InitialNonce(CLIENT_SERVER_NONCE_MSB), InitialNonce(SERVER_CLIENT_NONCE_MSB),
            View(w.client, w.up, w.down), w.server)
  }
}
