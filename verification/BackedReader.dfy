/** The receiving half of a connection: packets come out of the catch-up buffer first,
    then out of the framed byte stream of the socket (src/base/BackedReader.cpp). */
module BackedReaders {
  import opened Wire
  import opened Crypto
  import opened Sockets
  import opened BackedWriters

  /** The reader's fields; `delivered` is history: the packets handed out so far. */
  datatype Reader = Reader(
    fd: int,
    nonce: Bytes,
    sequenceNumber: int,
    localBuffer: seq<Bytes>,
    partial: Bytes,
    delivered: seq<Packet>)

  /** `Fatal` is a failed check that ends the process. */
  datatype ReadResult = NoPacket | Got(packet: Packet) | SocketError | Fatal

  function InitialReader(fd: int, start: Bytes): Reader {
    Reader(fd, start, 0, [], [], [])
  }

  /** Deserialize, then decrypt; None is fatal. */
  function Decrypted(c: Cipher, nonce: Bytes, s: Bytes): Option<Packet> {
    match Parse(s)
    case None => None
    case Some(p) =>
      if !p.encrypted then None
      else match c.unseal(nonce, p.payload)
        case None => None
        case Some(payload) => Some(Packet(false, p.header, payload))
  }

  /** Hand out the packet serialized as `s`, which leaves `next` behind. */
  function HandOut(c: Cipher, r: Reader, next: Reader, s: Bytes): (Reader, ReadResult) {
    match Decrypted(c, Incremented(r.nonce), s)
    case None => (r, Fatal)
    case Some(p) => (next.(nonce := Incremented(r.nonce), delivered := r.delivered + [p]), Got(p))
  }

  datatype Fill = Fill(partial: Bytes, socket: SocketState, ok: bool)

  /** One socket read towards a partial message of `want` bytes; it is skipped when they
      are there already, and the end of the stream counts as an error. */
  function FillTo(partial: Bytes, socket: SocketState, want: nat): Fill {
    if |partial| >= want then Fill(partial, socket, true)
    else
      var (rest, io) := SocketRead(socket, want - |partial|);
      if io.ReadFailed? || io.bytes == [] then Fill(partial, rest, false)
      else Fill(partial + io.bytes, rest, true)
  }

  function MessageLength(partial: Bytes): int
    requires |partial| >= 4
  {
    DecodeLength(partial[..4])
  }

  datatype Framing = Framing(partial: Bytes, socket: SocketState, outcome: Outcome)

  datatype Outcome = Failed | Incomplete | Complete | Malformed

  /** The framing part of `read`: up to two socket reads, never past the current frame. */
  function ReadMessage(partial: Bytes, socket: SocketState): (m: Framing)
    ensures m.outcome.Complete? ==> |m.partial| >= 4
  {
    var header := FillTo(partial, socket, 4);
    if !header.ok then Framing(header.partial, header.socket, Failed)
    else if |header.partial| < 4 then Framing(header.partial, header.socket, Incomplete)
    else
      var length := MessageLength(header.partial);
      if length < |header.partial| - 4 then Framing(header.partial, header.socket, Malformed)
      else
        var body := FillTo(header.partial, header.socket, 4 + length);
        Framing(body.partial, body.socket,
                if !body.ok then Failed else if |body.partial| < 4 + length then Incomplete else Complete)
  }

  /** The part of `read` that uses the socket. */
  function ReadSocket(c: Cipher, r: Reader, socket: SocketState): (Reader, SocketState, ReadResult) {
    var m := ReadMessage(r.partial, socket);
    match m.outcome
    case Failed => (r.(partial := m.partial), m.socket, SocketError)
    case Incomplete => (r.(partial := m.partial), m.socket, NoPacket)
    case Malformed => (r, m.socket, Fatal)
    case Complete =>
      var (r', result) :=
        HandOut(c, r, r.(partial := [], sequenceNumber := r.sequenceNumber + 1), m.partial[4..]);
      (r', m.socket, result)
  }

  /** One call of `read`. */
  function ReadOne(c: Cipher, r: Reader, socket: SocketState): (Reader, SocketState, ReadResult) {
    if r.fd < 0 then (r, socket, NoPacket)
    else if r.localBuffer != [] then
      var (r', result) := HandOut(c, r, r.(localBuffer := r.localBuffer[1..]), r.localBuffer[0]);
      (r', socket, result)
    else ReadSocket(c, r, socket)
  }

  function ReaderRevived(r: Reader, fd: int, entries: seq<Bytes>): Reader {
    r.(partial := [], localBuffer := r.localBuffer + entries,
       sequenceNumber := r.sequenceNumber + |entries|, fd := fd)
  }

  function ReaderInvalidated(r: Reader): Reader {
    r.(fd := -1)
  }

  // ----- the invariant -----

  /** What the reader holds, against the packets its peer accepted: those handed out and
      those waiting in the local buffer are the first `sequenceNumber`, and the next
      nonce is the one that sealed the next packet to be handed out. */
  ghost predicate ReaderInv(start: Bytes, r: Reader, log: seq<Packet>, sealed: seq<Packet>)
    requires |sealed| == |log|
  {
    && |r.delivered| + |r.localBuffer| == r.sequenceNumber <= |log|
    && r.delivered == log[..|r.delivered|]
    && (forall i :: 0 <= i < |r.localBuffer| ==> r.localBuffer[i] == sealed[|r.delivered| + i].Serialize())
    && r.nonce == NonceAt(start, |r.delivered|)
  }

  ghost predicate LengthsFit(sealed: seq<Packet>) {
    forall p :: p in sealed ==> p.Length() < TWO_TO_THE_31
  }

  /** Decrypting packet k with the k-th nonce gives back what was written. */
  lemma {:induction false} DecryptedIsWritten(c: Cipher, start: Bytes, log: seq<Packet>, sealed: seq<Packet>, k: nat)
    requires Ideal(c) && SealedInOrder(c, start, log, sealed) && k < |log|
    ensures Decrypted(c, NonceAt(start, k + 1), sealed[k].Serialize()) == Some(log[k])
  {
    ParseSerialize(sealed[k]);
    var nonce, message := NonceAt(start, k + 1), log[k].payload;
    assert c.unseal(nonce, c.seal(nonce, message)) == Some(message);
  }

  lemma {:induction false} FillKeepsBytes(partial: Bytes, socket: SocketState, want: nat)
    ensures var f := FillTo(partial, socket, want);
            && f.partial + f.socket.incoming == partial + socket.incoming
            && partial <= f.partial
            && (|f.partial| <= want || f.partial == partial)
  {
    if |partial| < want {
      var (rest, io) := SocketRead(socket, want - |partial|);
      if io.Received? {
        assert partial + (io.bytes + rest.incoming) == (partial + io.bytes) + rest.incoming;
      }
    }
  }

  /** The stream goes on with these packets' frames, of which the partial message holds
      part of the first alone. */
  ghost predicate FollowsFrames(partial: Bytes, incoming: Bytes, ps: seq<Packet>) {
    && partial + incoming <= Frames(ps)
    && (if ps == [] then partial == [] else |partial| <= |Frame(ps[0])|)
  }

  /** Some of the first frame has not been read. */
  predicate Lacks(partial: Bytes, ps: seq<Packet>) {
    ps != [] ==> |partial| < |Frame(ps[0])|
  }

  /** However the stream is chopped, framing never faults, never reads past the current
      frame, and completes with exactly the bytes of the first packet. */
  lemma {:induction false} ReadMessageIsOneFrame(partial: Bytes, socket: SocketState, ps: seq<Packet>)
    requires FollowsFrames(partial, socket.incoming, ps)
    requires ps != [] ==> ps[0].Length() < TWO_TO_THE_31
    ensures var m := ReadMessage(partial, socket);
            && m.partial + m.socket.incoming == partial + socket.incoming
            && FollowsFrames(m.partial, m.socket.incoming, ps)
            && !m.outcome.Malformed?
            && (m.outcome.Complete? <==> ps != [] && m.partial == Frame(ps[0]) && !m.outcome.Failed?)
            && (m.outcome.Complete? ==> m.partial[4..] == ps[0].Serialize())
            && (!m.outcome.Complete? && Lacks(partial, ps) ==> Lacks(m.partial, ps))
  {
    var header := FillTo(partial, socket, 4);
    FillKeepsBytes(partial, socket, 4);
    StreamPrefix(header.partial, header.socket.incoming, ps);
    if header.ok && |header.partial| >= 4 {
      PartialIsOneFrame(header.partial, ps);
      var want := 4 + ps[0].Length();
      var body := FillTo(header.partial, header.socket, want);
      FillKeepsBytes(header.partial, header.socket, want);
      StreamPrefix(body.partial, body.socket.incoming, ps);
      PartialIsOneFrame(body.partial, ps);
      assert Frame(ps[0])[4..] == ps[0].Serialize();
    }
  }

  lemma {:induction false} StreamPrefix(partial: Bytes, incoming: Bytes, ps: seq<Packet>)
    requires partial + incoming <= Frames(ps)
    ensures partial == Frames(ps)[..|partial|]
  {
    assert partial == (partial + incoming)[..|partial|];
  }

  /** A read from a stream that continues the peer's frames where the reader stands. */
  lemma {:induction false} ReadSocketFollowsFrames(c: Cipher, start: Bytes, r: Reader, log: seq<Packet>, sealed: seq<Packet>,
                                socket: SocketState)
    requires Ideal(c) && SealedInOrder(c, start, log, sealed) && LengthsFit(sealed)
    requires ReaderInv(start, r, log, sealed) && r.localBuffer == []
    requires FollowsFrames(r.partial, socket.incoming, sealed[r.sequenceNumber..])
    ensures var (r', socket', result) := ReadSocket(c, r, socket);
            && !result.Fatal?
            && (!result.Got? ==>
                  && r' == r.(partial := r'.partial)
                  && r'.partial + socket'.incoming == r.partial + socket.incoming
                  && FollowsFrames(r'.partial, socket'.incoming, sealed[r.sequenceNumber..])
                  && (Lacks(r.partial, sealed[r.sequenceNumber..]) ==> Lacks(r'.partial, sealed[r.sequenceNumber..])))
            && (result.Got? ==>
                  && r.sequenceNumber < |log|
                  && result.packet == log[r.sequenceNumber]
                  && r' == r.(partial := [], sequenceNumber := r.sequenceNumber + 1,
                              nonce := Incremented(r.nonce), delivered := r.delivered + [result.packet])
                  && Frame(sealed[r.sequenceNumber]) + socket'.incoming == r.partial + socket.incoming)
  {
    var rest := sealed[r.sequenceNumber..];
    ReadMessageIsOneFrame(r.partial, socket, rest);
    if ReadMessage(r.partial, socket).outcome.Complete? {
      DecryptedIsWritten(c, start, log, sealed, r.sequenceNumber);
    }
  }

  /** Taking a packet out of the local buffer. */
  lemma {:induction false} ReadLocalFollowsLog(c: Cipher, start: Bytes, r: Reader, log: seq<Packet>, sealed: seq<Packet>,
                            socket: SocketState)
    requires Ideal(c) && SealedInOrder(c, start, log, sealed)
    requires ReaderInv(start, r, log, sealed) && r.localBuffer != [] && r.fd >= 0
    ensures var (r', socket', result) := ReadOne(c, r, socket);
            && result == Got(log[|r.delivered|])
            && socket' == socket
            && r' == r.(localBuffer := r.localBuffer[1..], nonce := Incremented(r.nonce),
                        delivered := r.delivered + [log[|r.delivered|]])
  {
    DecryptedIsWritten(c, start, log, sealed, |r.delivered|);
  }

  /** Handing out the next packet keeps the reader in step with its peer. */
  lemma {:induction false} HandOutKeepsInv(start: Bytes, r: Reader, r': Reader, log: seq<Packet>, sealed: seq<Packet>)
    requires |sealed| == |log| && ReaderInv(start, r, log, sealed) && |r.delivered| < |log|
    requires r'.delivered == r.delivered + [log[|r.delivered|]] && r'.nonce == Incremented(r.nonce)
    requires || (r.localBuffer == r'.localBuffer == [] && r'.sequenceNumber == r.sequenceNumber + 1)
             || (r.localBuffer != [] && r'.localBuffer == r.localBuffer[1..]
                 && r'.sequenceNumber == r.sequenceNumber)
    ensures ReaderInv(start, r', log, sealed)
  {
    forall i | 0 <= i < |r'.localBuffer|
      ensures r'.localBuffer[i] == sealed[|r'.delivered| + i].Serialize()
    {
      assert r'.localBuffer[i] == r.localBuffer[i + 1];
    }
  }

  /** A revival with the peer's packets from where the reader stands keeps the step. */
  lemma {:induction false} RevivalKeepsInv(start: Bytes, r: Reader, log: seq<Packet>, sealed: seq<Packet>, fd: int,
                                           upTo: nat)
    requires |sealed| == |log| && ReaderInv(start, r, log, sealed) && r.sequenceNumber <= upTo <= |log|
    ensures var entries := SerializedAll(sealed[r.sequenceNumber..upTo]);
            && ReaderInv(start, ReaderRevived(r, fd, entries), log, sealed)
            && ReaderRevived(r, fd, entries).sequenceNumber == upTo
  {
  }

  // ----- the class -----

  class BackedReader {
    const cryptoHandler: CryptoHandler
    var socketFd: int
    var sequenceNumber: int
    var localBuffer: seq<Bytes>
    var partialMessage: Bytes
    ghost var delivered: seq<Packet>

    ghost function State(): Reader
      reads this, cryptoHandler, cryptoHandler.nonce
    {
      Reader(socketFd, cryptoHandler.nonce[..], sequenceNumber, localBuffer, partialMessage, delivered)
    }

    constructor (cryptoHandler: CryptoHandler, socketFd: int)
      requires cryptoHandler.Valid()
      ensures this.cryptoHandler == cryptoHandler
      ensures State() == InitialReader(socketFd, cryptoHandler.nonce[..])
    {
      this.cryptoHandler, this.socketFd := cryptoHandler, socketFd;
      sequenceNumber, localBuffer, partialMessage, delivered := 0, [], [], [];
    }

    /** A fatal outcome ends the process, so nothing is said of the state it leaves. */
    method Read(socket: Socket) returns (result: ReadResult)
      requires cryptoHandler.Valid()
      modifies this, cryptoHandler.nonce, socket
      ensures socket.outgoing == old(socket.outgoing)
      ensures var (r, s, res) := ReadOne(cryptoHandler.cipher, old(State()), old(socket.State()));
              result == res && (!res.Fatal? ==> State() == r && socket.State() == s)
    {
      if socketFd < 0 {
        return NoPacket;
      }
      if localBuffer != [] {
        var front := localBuffer[0];
        localBuffer := localBuffer[1..];
        result := Deliver(front);
        return;
      }
      var outcome := ReadFrame(socket);
      match outcome
      case Failed => return SocketError;
      case Incomplete => return NoPacket;
      case Malformed => return Fatal;
      case Complete =>
        var serialized := partialMessage[4..];
        partialMessage := [];
        sequenceNumber := sequenceNumber + 1;
        result := Deliver(serialized);
    }

    method ReadFrame(socket: Socket) returns (outcome: Outcome)
      modifies this`partialMessage, socket
      ensures Framing(partialMessage, socket.State(), outcome) ==
              ReadMessage(old(partialMessage), old(socket.State()))
      ensures socket.outgoing == old(socket.outgoing)
    {
      var ok := FillPartial(4, socket);
      if !ok {
        return Failed;
      }
      if |partialMessage| < 4 {
        return Incomplete;
      }
      var messageLength := DecodeLength(partialMessage[..4]);
      if messageLength < |partialMessage| - 4 {
        return Malformed;
      }
      ok := FillPartial(4 + messageLength, socket);
      if !ok {
        return Failed;
      }
      return if |partialMessage| < 4 + messageLength then Incomplete else Complete;
    }

    method FillPartial(want: nat, socket: Socket) returns (ok: bool)
      modifies this`partialMessage, socket
      ensures Fill(partialMessage, socket.State(), ok) ==
              FillTo(old(partialMessage), old(socket.State()), want)
      ensures socket.outgoing == old(socket.outgoing)
    {
      if |partialMessage| >= want {
        return true;
      }
      var io := socket.Read(want - |partialMessage|);
      if io.ReadFailed? || io.bytes == [] {
        return false;
      }
      partialMessage := partialMessage + io.bytes;
      return true;
    }

    method Deliver(serialized: Bytes) returns (result: ReadResult)
      requires cryptoHandler.Valid()
      modifies this`delivered, cryptoHandler.nonce
      ensures var (r, res) := HandOut(cryptoHandler.cipher, old(State()), old(State()), serialized);
              result == res && (!res.Fatal? ==> State() == r)
      ensures result.Got? <==> && |serialized| >= 2 && serialized[0] != 0
                               && cryptoHandler.cipher.unseal(Incremented(old(cryptoHandler.nonce[..])), serialized[2..]).Some?
      ensures result.Got? ==>
                && cryptoHandler.nonce[..] == Incremented(old(cryptoHandler.nonce[..]))
                && !result.packet.encrypted && result.packet.header == serialized[1]
                && cryptoHandler.cipher.unseal(cryptoHandler.nonce[..], serialized[2..]) == Some(result.packet.payload)
      ensures result.Got? || result.Fatal?
    {
      var packet := Parse(serialized);
      if packet.None? || !packet.value.encrypted {
        return Fatal;
      }
      var payload := cryptoHandler.Decrypt(packet.value.payload);
      if payload.None? {
        return Fatal;
      }
      var plain := Packet(false, packet.value.header, payload.value);
      delivered := delivered + [plain];
      return Got(plain);
    }

    method Revive(newSocketFd: int, newLocalEntries: seq<Bytes>)
      modifies this
      ensures State() == ReaderRevived(old(State()), newSocketFd, newLocalEntries)
    {
      partialMessage := [];
      localBuffer := localBuffer + newLocalEntries;
      sequenceNumber := sequenceNumber + |newLocalEntries|;
      socketFd := newSocketFd;
    }

    method InvalidateSocket()
      modifies this
      ensures State() == ReaderInvalidated(old(State()))
    {
      socketFd := -1;
    }
  }
}
