/** One end of the connection: a reader, a writer and the socket they share
    (src/base/Connection.cpp). */
module Connections {
  import opened Wire
  import opened Crypto
  import opened Sockets
  import opened BackedWriters
  import opened BackedReaders

  datatype End = End(writer: Writer, reader: Reader, socketFd: int)

  /** What the two ends exchange on a new socket before any frame. */
  datatype Message = Header(sequenceNumber: int) | Catchup(entries: seq<Bytes>)

  /** How the blocking calls of a recovery turn out; None and false are thrown errors. */
  datatype Handshake = Handshake(
    headerWritten: bool,
    remoteHeader: Option<int>,
    catchupWritten: bool,
    remoteCatchup: Option<seq<Bytes>>)

  /** `FatalRecovery` is the failed check "client is ahead of server". */
  datatype RecoveryResult = Reconnected | Aborted | FatalRecovery

  function Closed(e: End): End {
    if e.socketFd == -1 then e
    else End(Invalidated(e.writer), ReaderInvalidated(e.reader), -1)
  }

  /** `write`: the packet is kept whatever happens to the socket; a failed send closes
      it. The flag is what the caller is told. */
  function EndWrite(c: Cipher, e: End, p: Packet, script: Script): (End, Bytes, bool) {
    var (w, bytes, result) := Written(c, e.writer, p, script);
    var e' := e.(writer := w);
    (if result.WroteWithFailure? then Closed(e') else e', bytes, !result.Skipped?)
  }

  /** `read`: a socket error closes the socket and is hidden from the caller. */
  function EndRead(c: Cipher, e: End, socket: SocketState): (End, SocketState, ReadResult) {
    var (r, rest, result) := ReadOne(c, e.reader, socket);
    var e' := e.(reader := r);
    if result.SocketError? then (Closed(e'), rest, NoPacket) else (e', rest, result)
  }

  /** The first message of `recover`: how many packets have been read. */
  function HeaderOf(e: End): Message {
    Header(ToInt32(e.reader.sequenceNumber))
  }

  /** The last step of `recover`: the new socket takes over. */
  function EndRevived(e: End, fd: int, entries: seq<Bytes>): End {
    End(Revived(e.writer, fd), ReaderRevived(e.reader, fd, entries), fd)
  }

  function EndRecovered(e: End, fd: int, io: Handshake): (End, seq<Message>, RecoveryResult) {
    if !io.headerWritten then (e, [], Aborted)
    else if io.remoteHeader.None? then (e, [HeaderOf(e)], Aborted)
    else
      var answer := Recovered(e.writer, io.remoteHeader.value);
      if answer.AheadOfWriter? then (e, [HeaderOf(e)], FatalRecovery)
      else if !answer.Entries? || !io.catchupWritten then (e, [HeaderOf(e)], Aborted)
      else
        var sent := [HeaderOf(e), Catchup(answer.entries)];
        if io.remoteCatchup.None? then (e, sent, Aborted)
        else (EndRevived(e, fd, io.remoteCatchup.value), sent, Reconnected)
  }

  ghost predicate EndInv(c: Cipher, start: Bytes, e: End) {
    && WriterInv(c, start, e.writer)
    && e.socketFd == e.writer.fd == e.reader.fd >= -1
  }

  lemma {:induction false} ClosedInv(c: Cipher, start: Bytes, e: End)
    requires WriterInv(c, start, e.writer) && e.socketFd == e.writer.fd == e.reader.fd >= -1
    ensures EndInv(c, start, Closed(e)) && Closed(e).socketFd == -1
  {
  }

  lemma {:induction false} EndWriteInv(c: Cipher, start: Bytes, e: End, p: Packet, script: Script)
    requires Ideal(c) && EndInv(c, start, e) && !p.encrypted
    ensures EndInv(c, start, EndWrite(c, e, p, script).0)
  {
    WrittenInv(c, start, e.writer, p, script);
    ClosedInv(c, start, e.(writer := Written(c, e.writer, p, script).0));
  }

  lemma {:induction false} EndRevivedInv(c: Cipher, start: Bytes, e: End, fd: nat, entries: seq<Bytes>)
    requires EndInv(c, start, e) && e.socketFd == -1
    ensures EndInv(c, start, EndRevived(e, fd, entries))
  {
    RevivedInv(c, start, e.writer, fd);
  }

  // ----- retrying -----

  /** What happens elsewhere between two attempts of `writePacket`. */
  datatype Pause = Nothing | ShutsDown | Recovers(newFd: nat, io: Handshake)

  /** One round of the client's reconnect loop: no answer, a broken exchange or a refusal; an
      unknown key; a recovery; or a shutdown by another thread. */
  datatype Attempt = Fails | BadKey | Answered(fd: nat, io: Handshake) | Stopped

  /** The round ends the loop of an end that stands closed as `e`: the key is unknown, the client
      shuts down, or a recovery goes through or is fatal. */
  predicate Decides(e: End, round: Attempt) {
    match round
    case Fails => false
    case BadKey => true
    case Stopped => true
    case Answered(fd, io) => !EndRecovered(e, fd, io).2.Aborted?
  }

  function AfterRound(e: End, round: Attempt): End {
    if round.Answered? then EndRecovered(e, round.fd, round.io).0 else e
  }

  /** The end after the pauses, if nothing is written between them. */
  function Paused(e: End, pauses: seq<Pause>): End {
    if pauses == [] then e else
      var before := Paused(e, pauses[..|pauses| - 1]);
      match pauses[|pauses| - 1]
      case Nothing => before
      case ShutsDown => Closed(before)
      case Recovers(fd, io) => EndRecovered(before, fd, io).0
  }

  /** The packet fits at the `k`-th attempt, and nothing has shut the connection down before. */
  ghost predicate FitsAt(e: End, p: Packet, pauses: seq<Pause>, k: int) {
    0 <= k <= |pauses| && Accepts(Paused(e, pauses[..k]).writer, p) && forall j :: 0 <= j < k ==> !pauses[j].ShutsDown?
  }

  lemma {:induction false} AcceptedOrSkipped(c: Cipher, e: End, p: Packet, script: Script)
    ensures EndWrite(c, e, p, script).2 <==> Accepts(e.writer, p)
    ensures EndWrite(c, e, p, script).0.writer.log == e.writer.log + (if Accepts(e.writer, p) then [p] else [])
    ensures !Accepts(e.writer, p) ==> EndWrite(c, e, p, script) == (e, [], false)
  {
    hide Frame, Encrypted, Incremented, BytesWritten, Trimmed;
    assert e.writer.log + [] == e.writer.log;
  }

  /** A write on an open end puts on the socket what its calls take of the frame before one of them
      fails, and closes the end if and only if that is not all. */
  lemma {:induction false} WriteClosesIff(c: Cipher, e: End, p: Packet, script: Script)
    requires Ideal(c) && e.socketFd == e.writer.fd >= 0
    ensures var (e', bytes, accepted) := EndWrite(c, e, p, script);
            var frame, taken := Frame(Encrypted(c, Incremented(e.writer.nonce), p)), Sum(Working(script));
            && accepted && |frame| == 4 + p.Length() + MAC_BYTES && taken >= 0
            && bytes == (if taken < |frame| then frame[..taken] else frame)
            && (e'.socketFd == -1 <==> taken < |frame|)
            && (e'.socketFd != -1 ==> e'.socketFd == e.socketFd)
  {
    hide Frame, Incremented, Trimmed, TotalLength, BytesWritten, Working, Sum;
    var packet := Encrypted(c, Incremented(e.writer.nonce), p);
    assert packet.Length() == p.Length() + MAC_BYTES;
    var frame := Frame(packet);
    BytesWrittenIs(script, |frame|);
    SumIsCount(Working(script));
    assert frame[..|frame|] == frame;
  }

  lemma {:induction false} RecoveryKeepsLog(e: End, fd: int, io: Handshake)
    ensures EndRecovered(e, fd, io).0.writer.log == e.writer.log
    ensures !EndRecovered(e, fd, io).2.Reconnected? ==> EndRecovered(e, fd, io).0 == e
    ensures EndRecovered(e, fd, io).2.Reconnected? ==> EndRecovered(e, fd, io).0.socketFd == fd
  {
    hide Recovered;
  }

  /** `verifyPasskey`: all common characters are compared, whatever the first ones give. */
  method VerifyPasskey(key: string, targetKey: string) returns (verified: bool)
    ensures verified <==> key == targetKey
  {
    var commonSize := if |key| < |targetKey| then |key| else |targetKey|;
    var matchFailed := |key| != |targetKey|;
    var i := 0;
    while i < commonSize
      invariant 0 <= i <= commonSize
      invariant matchFailed <==> |key| != |targetKey| || exists k :: 0 <= k < i && key[k] != targetKey[k]
    {
      matchFailed := matchFailed || key[i] != targetKey[i];
      i := i + 1;
    }
    return !matchFailed;
  }

  // ----- the class -----

  class Connection {
    const reader: BackedReader
    const writer: BackedWriter
    var socketFd: int
    var shuttingDown: bool

    ghost function State(): End
      reads this, reader, writer, reader.cryptoHandler, writer.cryptoHandler,
            reader.cryptoHandler.nonce, writer.cryptoHandler.nonce
    {
      End(writer.State(), reader.State(), socketFd)
    }

    ghost predicate Valid()
      reads this, reader, writer, reader.cryptoHandler, writer.cryptoHandler,
            reader.cryptoHandler.nonce, writer.cryptoHandler.nonce
    {
      && reader.cryptoHandler != writer.cryptoHandler
      && reader.cryptoHandler.nonce != writer.cryptoHandler.nonce
      && reader.cryptoHandler.cipher == writer.cryptoHandler.cipher
      && Ideal(writer.cryptoHandler.cipher)
      && reader.cryptoHandler.Valid() && writer.cryptoHandler.Valid()
      && EndInv(writer.cryptoHandler.cipher, writer.start, State())
    }

    constructor (reader: BackedReader, writer: BackedWriter, socketFd: int)
      requires reader.cryptoHandler != writer.cryptoHandler
      requires reader.cryptoHandler.nonce != writer.cryptoHandler.nonce
      requires reader.cryptoHandler.cipher == writer.cryptoHandler.cipher
      requires Ideal(writer.cryptoHandler.cipher)
      requires reader.cryptoHandler.Valid() && writer.Valid()
      requires socketFd == reader.socketFd == writer.socketFd >= -1
      ensures Valid() && this.reader == reader && this.writer == writer && !shuttingDown
      ensures State() == End(writer.State(), reader.State(), socketFd)
    {
      this.reader, this.writer, this.socketFd, shuttingDown := reader, writer, socketFd, false;
    }

    method CloseSocket()
      requires Valid()
      modifies this`socketFd, reader, writer
      ensures Valid() && State() == Closed(old(State()))
    {
      if socketFd == -1 {
        return;
      }
      reader.InvalidateSocket();
      writer.InvalidateSocket();
      socketFd := -1;
    }

    method Shutdown()
      requires Valid()
      modifies this, reader, writer
      ensures Valid() && shuttingDown && State() == Closed(old(State()))
    {
      shuttingDown := true;
      CloseSocket();
    }

    method Write(packet: Packet, socket: Socket) returns (success: bool)
      requires Valid() && !packet.encrypted
      modifies this`socketFd, reader, writer, writer.cryptoHandler.nonce, socket
      ensures Valid() && socket.incoming == old(socket.incoming)
      ensures var (e, bytes, ok) :=
                EndWrite(writer.cryptoHandler.cipher, old(State()), packet, old(socket.script));
              State() == e && socket.outgoing == old(socket.outgoing) + bytes && success == ok
      ensures !success ==> socket.script == old(socket.script)
    {
      EndWriteInv(writer.cryptoHandler.cipher, writer.start, State(), packet, socket.script);
      var result := writer.Write(packet, socket);
      if result == Skipped {
        return false;
      }
      if result == BufferedOnly {
        return true;
      }
      if result == WroteWithFailure && socketFd != -1 {
        CloseSocket();
      }
      return true;
    }

    method Read(socket: Socket) returns (result: ReadResult)
      requires Valid()
      modifies this`socketFd, reader, writer, reader.cryptoHandler.nonce, socket
      ensures socket.outgoing == old(socket.outgoing)
      ensures var (e, s, res) :=
                EndRead(writer.cryptoHandler.cipher, old(State()), old(socket.State()));
              result == res && (!res.Fatal? ==> Valid() && State() == e && socket.State() == s)
      ensures old(socketFd) == -1 ==> result.NoPacket? && State() == old(State()) && socket.State() == old(socket.State())
    {
      result := reader.Read(socket);
      if result.SocketError? {
        CloseSocket();
        return NoPacket;
      }
    }

    /** `recover`, run under all three locks. Unless the connection is closed and every exchange
        goes through, nothing but messages on the new socket remains of it. */
    method Recover(newSocketFd: nat, io: Handshake) returns (result: RecoveryResult, sent: seq<Message>)
      requires Valid()
      modifies this`socketFd, reader, writer
      ensures Valid() && shuttingDown == old(shuttingDown)
      ensures (State(), sent, result) == EndRecovered(old(State()), newSocketFd, io)
      ensures result.FatalRecovery? <==>
                && old(socketFd) == -1 && io.headerWritten && io.remoteHeader.Some?
                && io.remoteHeader.value > |old(State()).writer.log|
      ensures result.Reconnected? <==>
                && old(socketFd) == -1 && io.headerWritten && io.remoteHeader.Some?
                && |old(State()).writer.log| - |old(State()).writer.backup| <= io.remoteHeader.value <= |old(State()).writer.log|
                && io.catchupWritten && io.remoteCatchup.Some?
    {
      sent := [];
      if !io.headerWritten {
        return Aborted, sent;
      }
      sent := [Header(ToInt32(reader.sequenceNumber))];
      if io.remoteHeader.None? {
        return Aborted, sent;
      }
      var answer := writer.Recover(io.remoteHeader.value);
      if answer.AheadOfWriter? {
        return FatalRecovery, sent;
      }
      if !answer.Entries? || !io.catchupWritten {
        return Aborted, sent;
      }
      sent := [sent[0], Catchup(answer.entries)];
      if io.remoteCatchup.None? {
        return Aborted, sent;
      }
      socketFd := newSocketFd;
      reader.Revive(socketFd, io.remoteCatchup.value);
      writer.Revive(socketFd);
      result := Reconnected;
    }

    method ReadPacket(socket: Socket) returns (result: ReadResult)
      requires Valid()
      modifies this`socketFd, reader, writer, reader.cryptoHandler.nonce, socket
      ensures shuttingDown == old(shuttingDown) && socket.outgoing == old(socket.outgoing)
      ensures var (e, s, res) := EndRead(writer.cryptoHandler.cipher, old(State()), old(socket.State()));
              if shuttingDown then result.NoPacket? && State() == old(State())
              else result == res && (!res.Fatal? ==> Valid() && State() == e && socket.State() == s)
    {
      if shuttingDown {
        return NoPacket;
      }
      result := Read(socket);
    }

    /** Tries until the packet is accepted or the connection shuts down: it is accepted, once, at the
        first attempt at which it fits, unless the connection shuts down before. */
    method WritePacket(packet: Packet, socket: Socket, pauses: seq<Pause>) returns (accepted: bool, waits: nat)
      requires Valid() && !packet.encrypted
      modifies this, reader, writer, writer.cryptoHandler.nonce, socket
      ensures Valid() && waits <= |pauses|
      ensures accepted <==> !old(shuttingDown) && exists k :: FitsAt(old(State()), packet, pauses, k)
      ensures accepted ==> FitsAt(old(State()), packet, pauses, waits)
      ensures forall k :: 0 <= k < waits ==> !FitsAt(old(State()), packet, pauses, k)
      ensures accepted ==>
                var (e, bytes, ok) := EndWrite(writer.cryptoHandler.cipher, Paused(old(State()), pauses[..waits]), packet,
                                               old(socket.script));
                ok && State() == e && socket.outgoing == old(socket.outgoing) + bytes
      ensures !accepted ==> (shuttingDown || waits == |pauses|) && socket.outgoing == old(socket.outgoing)
                            && State() == Paused(old(State()), pauses[..waits])
      ensures State().writer.log == old(State().writer.log) + if accepted then [packet] else []
    {
      hide EndInv, WriterInv, EndWrite, Written, EndRecovered, Accepts;
      waits := 0;
      assert State().writer.log == State().writer.log + [];
      assert socket.outgoing == socket.outgoing + [];
      while true
        invariant Valid() && waits <= |pauses| && State().writer.log == old(State().writer.log)
        invariant State() == Paused(old(State()), pauses[..waits])
        invariant socket.script == old(socket.script) && socket.outgoing == old(socket.outgoing)
        invariant shuttingDown <==> old(shuttingDown) || exists j :: 0 <= j < waits && pauses[j].ShutsDown?
        invariant forall k :: 0 <= k < waits ==> !FitsAt(old(State()), packet, pauses, k)
        decreases |pauses| - waits
      {
        if shuttingDown {
          return false, waits;
        }
        AcceptedOrSkipped(writer.cryptoHandler.cipher, State(), packet, socket.script);
        var success := Write(packet, socket);
        if success {
          assert FitsAt(old(State()), packet, pauses, waits);
          return true, waits;
        }
        if waits == |pauses| {
          return false, waits;
        }
        OnePauseMore(old(State()), pauses, waits);
        match pauses[waits] {
          case Nothing =>
          case ShutsDown => Shutdown();
          case Recovers(fd, io) =>
            RecoveryKeepsLog(State(), fd, io);
            var result, sent := Recover(fd, io);
        }
        waits := waits + 1;
      }
    }

    /** The server's way in: its old socket, if any, is dropped first. */
    method RecoverClient(newSocketFd: nat, io: Handshake) returns (result: RecoveryResult, sent: seq<Message>)
      requires Valid()
      modifies this`socketFd, reader, writer
      ensures Valid() && shuttingDown == old(shuttingDown)
      ensures (State(), sent, result) == EndRecovered(Closed(old(State())), newSocketFd, io)
    {
      hide EndInv, EndRecovered;
      if socketFd != -1 {
        CloseSocket();
      }
      result, sent := Recover(newSocketFd, io);
    }

    /** The client's way in: rounds until it is connected, shut down or turned away. `rounds` counts
        those that were made. */
    method PollReconnect(attempts: seq<Attempt>) returns (rounds: nat)
      requires Valid()
      modifies this, reader, writer
      ensures Valid() && rounds <= |attempts|
      ensures old(socketFd) != -1 || old(shuttingDown) ==>
                rounds == 0 && State() == old(State()) && shuttingDown == old(shuttingDown)
      ensures old(socketFd) == -1 && !old(shuttingDown) ==>
                forall k :: 0 <= k < rounds - 1 ==> !Decides(old(State()), attempts[k])
      ensures old(socketFd) == -1 && !old(shuttingDown) && (forall k :: 0 <= k < |attempts| ==> !Decides(old(State()), attempts[k])) ==>
                rounds == |attempts| && State() == old(State()) && !shuttingDown
      ensures old(socketFd) == -1 && !old(shuttingDown) && (exists k :: 0 <= k < |attempts| && Decides(old(State()), attempts[k])) ==>
                && rounds > 0 && Decides(old(State()), attempts[rounds - 1])
                && State() == AfterRound(old(State()), attempts[rounds - 1])
                && (shuttingDown <==> !attempts[rounds - 1].Answered?)
    {
      hide EndInv, EndRecovered, Recovered;
      ghost var before := State();
      rounds := 0;
      while rounds < |attempts|
        invariant rounds <= |attempts| && Valid()
        invariant old(socketFd) != -1 || old(shuttingDown) ==>
                    rounds == 0 && State() == before && shuttingDown == old(shuttingDown)
        invariant old(socketFd) == -1 && !old(shuttingDown) ==> Polling(before, State(), shuttingDown, attempts, rounds)
      {
        if socketFd != -1 || shuttingDown {
          return;
        }
        match attempts[rounds] {
          case Fails =>
          case BadKey =>
            shuttingDown := true;
            return rounds + 1;
          case Stopped =>
            Shutdown();
            assert Closed(before) == before;
          case Answered(fd, io) =>
            RecoveryKeepsLog(State(), fd, io);
            var result, sent := Recover(fd, io);
            if result.FatalRecovery? {
              rounds := rounds + 1;
              return;
            }
        }
        rounds := rounds + 1;
      }
    }
  }

  /** The rounds so far: none has decided, or the last one has. */
  ghost predicate Polling(before: End, now: End, shuttingDown: bool, attempts: seq<Attempt>, rounds: nat) {
    && rounds <= |attempts|
    && (forall k :: 0 <= k < rounds - 1 ==> !Decides(before, attempts[k]))
    && if rounds == 0 || !Decides(before, attempts[rounds - 1]) then now == before && now.socketFd == -1 && !shuttingDown
       else
         && now == AfterRound(before, attempts[rounds - 1])
         && (shuttingDown <==> !attempts[rounds - 1].Answered?)
         && (shuttingDown || now.socketFd != -1)
  }

  lemma {:induction false} OnePauseMore(e: End, pauses: seq<Pause>, k: nat)
    requires k < |pauses|
    ensures Paused(e, pauses[..k + 1]) == match pauses[k]
                                          case Nothing => Paused(e, pauses[..k])
                                          case ShutsDown => Closed(Paused(e, pauses[..k]))
                                          case Recovers(fd, io) => EndRecovered(Paused(e, pauses[..k]), fd, io).0
  {
    hide Closed, EndRecovered;
    assert pauses[..k + 1][..k] == pauses[..k];
  }
}
