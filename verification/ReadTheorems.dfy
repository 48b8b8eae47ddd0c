/** When a read hands out a packet, waits for more, or finds the socket broken
    (src/base/BackedReader.cpp, src/base/Connection.cpp). */
module ReadTheorems {
  import opened Wire
  import opened Crypto
  import opened Sockets
  import opened BackedWriters
  import opened BackedReaders
  import opened Connections

  /** The next call of `read` returns an error or no bytes. */
  predicate Breaks(script: Script, incoming: Bytes) {
    script == [] || script[0] <= 0 || incoming == []
  }

  /** How many of `want` bytes it returns otherwise. */
  function Moves(script: Script, incoming: Bytes, want: nat): nat
    requires !Breaks(script, incoming)
  {
    Min(script[0], Min(want, |incoming|))
  }

  /** A call that a read makes breaks: the one for the header while that is not complete, and the
      one for the body once it is. */
  predicate ReadBreaks(script: Script, incoming: Bytes, partial: Bytes) {
    || Breaks(script, incoming)
    || (|partial| < 4 && var n := Moves(script, incoming, 4 - |partial|);
          |partial| + n == 4 && Breaks(script[1..], incoming[n..]))
  }

  /** The calls it makes let through all that a frame of this length still lacks. */
  predicate LetsThrough(script: Script, incoming: Bytes, partial: Bytes, length: nat)
    requires |partial| < length
  {
    if |partial| >= 4 then BringsAll(script, incoming, length - |partial|)
    else if 4 < length then
      BringsAll(script, incoming, 4 - |partial|) && BringsAll(script[1..], incoming[4 - |partial|..], length - 4)
    else false
  }

  /** One call returns all it asks for. */
  predicate BringsAll(script: Script, incoming: Bytes, want: nat) {
    script != [] && script[0] >= want && |incoming| >= want
  }

  lemma {:induction false} FillIs(partial: Bytes, socket: SocketState, want: nat)
    requires |partial| < want
    ensures var f := FillTo(partial, socket, want);
            if Breaks(socket.script, socket.incoming) then !f.ok
            else
              var n := Moves(socket.script, socket.incoming, want - |partial|);
              n > 0 && f == Fill(partial + socket.incoming[..n],
                                 SocketState(socket.incoming[n..], socket.script[1..]), true)
  {
  }

  /** The stream continues the frame of one packet, of which some bytes are still missing. */
  ghost predicate InFrame(partial: Bytes, incoming: Bytes, ps: seq<Packet>) {
    FollowsFrames(partial, incoming, ps) && ps != [] && ps[0].Length() < TWO_TO_THE_31 && |partial| < |Frame(ps[0])|
  }

  /** What is left of the socket's calls after a read that has to wait. */
  predicate MovedOn(partial: Bytes, socket: SocketState, partial': Bytes, socket': SocketState) {
    && partial < partial' && partial' + socket'.incoming == partial + socket.incoming
    && |socket'.script| <= |socket.script|
    && socket'.script == socket.script[|socket.script| - |socket'.script|..]
    && |socket.script| - |socket'.script| <= |partial'| - |partial|
  }

  lemma {:induction false} HeaderOfFrame(partial: Bytes, incoming: Bytes, ps: seq<Packet>)
    requires FollowsFrames(partial, incoming, ps) && ps != [] && ps[0].Length() < TWO_TO_THE_31 && |partial| >= 4
    ensures MessageLength(partial) == ps[0].Length() && |Frame(ps[0])| == 4 + ps[0].Length()
  {
    StreamPrefix(partial, incoming, ps);
    assert |partial| <= |Frames(ps)|;
    PartialIsOneFrame(partial, ps);
  }

  /** Once the header is complete. */
  lemma {:induction false} BodyIff(partial: Bytes, socket: SocketState, ps: seq<Packet>)
    requires InFrame(partial, socket.incoming, ps) && |partial| >= 4
    ensures var m, length := ReadMessage(partial, socket), |Frame(ps[0])|;
            && (m.outcome.Failed? <==> Breaks(socket.script, socket.incoming))
            && (m.outcome.Complete? <==> BringsAll(socket.script, socket.incoming, length - |partial|))
            && !m.outcome.Malformed?
            && (m.outcome.Incomplete? ==> MovedOn(partial, socket, m.partial, m.socket) && |m.partial| < length)
  {
    hide FillTo, Frame, Frames, DecodeLength, MessageLength, FollowsFrames;
    HeaderOfFrame(partial, socket.incoming, ps);
    FullIs(partial, socket, 4);
    FillIs(partial, socket, |Frame(ps[0])|);
    if !Breaks(socket.script, socket.incoming) {
      var n := Moves(socket.script, socket.incoming, |Frame(ps[0])| - |partial|);
      TakenTogether(partial, socket.incoming, n);
    }
  }

  lemma {:induction false} TakenTogether(partial: Bytes, incoming: Bytes, n: nat)
    requires n <= |incoming|
    ensures (partial + incoming[..n]) + incoming[n..] == partial + incoming
  {
  }

  lemma {:induction false} FullIs(partial: Bytes, socket: SocketState, want: nat)
    requires |partial| >= want
    ensures FillTo(partial, socket, want) == Fill(partial, socket, true)
  {
  }

  lemma {:induction false} HeaderIff(partial: Bytes, socket: SocketState, ps: seq<Packet>)
    requires InFrame(partial, socket.incoming, ps) && |partial| < 4
    ensures var m, length := ReadMessage(partial, socket), |Frame(ps[0])|;
            && (m.outcome.Failed? <==> ReadBreaks(socket.script, socket.incoming, partial))
            && (m.outcome.Complete? <==> LetsThrough(socket.script, socket.incoming, partial, length))
            && (m.outcome.Incomplete? ==> MovedOn(partial, socket, m.partial, m.socket) && |m.partial| < length)
  {
    hide FillTo, Frame, Frames, DecodeLength, MessageLength, FollowsFrames, ReadMessage, MovedOn;
    FillIs(partial, socket, 4);
    if Breaks(socket.script, socket.incoming) {
      NoHeader(partial, socket);
    } else {
      var n := Moves(socket.script, socket.incoming, 4 - |partial|);
      var header, left := partial + socket.incoming[..n], SocketState(socket.incoming[n..], socket.script[1..]);
      TakenTogether(partial, socket.incoming, n);
      FirstCall(partial, socket, n);
      if n == 4 - |partial| {
        StillInFrame(partial, socket.incoming, header, left.incoming, ps);
        WithHeader(partial, socket, header, left);
        BodyIff(header, left, ps);
        var m := ReadMessage(header, left);
        if m.outcome.Incomplete? {
          MovedTwice(partial, socket, header, left, m.partial, m.socket);
        }
      } else {
        PartOfHeader(partial, socket, header, left);
      }
    }
  }

  lemma {:induction false} FirstCall(partial: Bytes, socket: SocketState, n: nat)
    requires socket.script != [] && 0 < n <= |socket.incoming|
    ensures MovedOn(partial, socket, partial + socket.incoming[..n], SocketState(socket.incoming[n..], socket.script[1..]))
  {
    TakenTogether(partial, socket.incoming, n);
  }

  lemma {:induction false} MovedTwice(p0: Bytes, s0: SocketState, p1: Bytes, s1: SocketState, p2: Bytes, s2: SocketState)
    requires MovedOn(p0, s0, p1, s1) && MovedOn(p1, s1, p2, s2)
    ensures MovedOn(p0, s0, p2, s2)
  {
  }

  lemma {:induction false} NoHeader(partial: Bytes, socket: SocketState)
    requires !FillTo(partial, socket, 4).ok
    ensures ReadMessage(partial, socket).outcome.Failed?
  {
  }

  lemma {:induction false} PartOfHeader(partial: Bytes, socket: SocketState, header: Bytes, left: SocketState)
    requires FillTo(partial, socket, 4) == Fill(header, left, true) && |header| < 4
    ensures ReadMessage(partial, socket) == Framing(header, left, Incomplete)
  {
  }

  lemma {:induction false} WithHeader(partial: Bytes, socket: SocketState, header: Bytes, left: SocketState)
    requires FillTo(partial, socket, 4) == Fill(header, left, true) && |header| == 4
    ensures ReadMessage(partial, socket) == ReadMessage(header, left)
  {
    FullIs(header, left, 4);
  }

  lemma {:induction false} StillInFrame(partial: Bytes, incoming: Bytes, partial': Bytes, incoming': Bytes,
                                        ps: seq<Packet>)
    requires InFrame(partial, incoming, ps) && partial' + incoming' == partial + incoming
    requires |partial'| < |Frame(ps[0])|
    ensures InFrame(partial', incoming', ps)
  {
    hide Frame, Frames;
  }

  /** Framing fails if and only if a call that it makes breaks, completes if and only if its calls
      let through what the frame lacks, and otherwise keeps what they brought. */
  lemma {:induction false} ReadMessageIff(partial: Bytes, socket: SocketState, ps: seq<Packet>)
    requires InFrame(partial, socket.incoming, ps)
    ensures var m, length := ReadMessage(partial, socket), |Frame(ps[0])|;
            && (m.outcome.Failed? <==> ReadBreaks(socket.script, socket.incoming, partial))
            && (m.outcome.Complete? <==> LetsThrough(socket.script, socket.incoming, partial, length))
            && (m.outcome.Incomplete? ==> MovedOn(partial, socket, m.partial, m.socket) && |m.partial| < length)
  {
    hide Frame, Frames, ReadMessage, MovedOn, FollowsFrames, InFrame;
    if |partial| < 4 {
      HeaderIff(partial, socket, ps);
    } else {
      BodyIff(partial, socket, ps);
    }
  }

  // ----- one read -----

  /** The stream goes on where an open reader without a local buffer stands, within the frame of the
      packet it stands at. */
  ghost predicate Reading(start: Bytes, r: Reader, log: seq<Packet>, sealed: seq<Packet>, incoming: Bytes)
    requires |sealed| == |log|
  {
    && r.fd >= 0 && r.localBuffer == [] && LengthsFit(sealed) && ReaderInv(start, r, log, sealed)
    && FollowsFrames(r.partial, incoming, sealed[r.sequenceNumber..])
    && (r.sequenceNumber < |log| ==> |r.partial| < |Frame(sealed[r.sequenceNumber])|)
  }

  /** A read is an error if and only if a call that it makes on the socket returns an error or no
      bytes, hands out the next packet if and only if its calls let through what the frame lacks,
      and otherwise keeps what they brought. */
  lemma {:induction false} ReadOneIff(c: Cipher, start: Bytes, r: Reader, log: seq<Packet>, sealed: seq<Packet>,
                                      socket: SocketState)
    requires Ideal(c) && |sealed| == |log| && SealedInOrder(c, start, log, sealed) && Reading(start, r, log, sealed, socket.incoming)
    ensures var (r', socket', result) := ReadOne(c, r, socket);
            && (result.SocketError? <==> ReadBreaks(socket.script, socket.incoming, r.partial))
            && (r.sequenceNumber == |log| ==> result.SocketError?)
            && (r.sequenceNumber < |log| ==>
                  && (result == Got(log[r.sequenceNumber]) <==>
                      LetsThrough(socket.script, socket.incoming, r.partial, |Frame(sealed[r.sequenceNumber])|))
                  && (result.Got? ==> result == Got(log[r.sequenceNumber]))
                  && (result.NoPacket? ==> r' == r.(partial := r'.partial)
                                           && MovedOn(r.partial, socket, r'.partial, socket')
                                           && Reading(start, r', log, sealed, socket'.incoming)))
  {
    hide Frame, Frames, ReadMessage, Decrypted, SealedInOrder, MovedOn, Breaks, FillTo;
    ReadSocketFollowsFrames(c, start, r, log, sealed, socket);
    var rest := sealed[r.sequenceNumber..];
    if r.sequenceNumber < |log| {
      NextFits(sealed, r.sequenceNumber);
      ReadMessageIff(r.partial, socket, rest);
      ReadMessageIsOneFrame(r.partial, socket, rest);
      ReadIsFraming(c, r, socket);
      if ReadMessage(r.partial, socket).outcome.Complete? {
        DecryptedIsWritten(c, start, log, sealed, r.sequenceNumber);
      }
    } else {
      assert rest == [];
      NothingFollows(r.partial, socket.incoming);
      NothingToRead(c, r, socket);
    }
  }

  lemma {:induction false} NextFits(sealed: seq<Packet>, k: nat)
    requires LengthsFit(sealed) && k < |sealed|
    ensures sealed[k..] != [] && sealed[k..][0] == sealed[k] && sealed[k].Length() < TWO_TO_THE_31
  {
  }

  lemma {:induction false} ReadIsFraming(c: Cipher, r: Reader, socket: SocketState)
    requires r.fd >= 0 && r.localBuffer == []
    ensures var (r', socket', result) := ReadOne(c, r, socket);
            var m := ReadMessage(r.partial, socket);
            && (m.outcome.Failed? ==> result.SocketError?)
            && (m.outcome.Incomplete? ==> result.NoPacket? && r' == r.(partial := m.partial) && socket' == m.socket)
            && (m.outcome.Complete? ==> !result.SocketError? && !result.NoPacket?)
            && (m.outcome.Malformed? ==> result.Fatal?)
  {
    hide ReadMessage, Decrypted, Incremented;
  }

  lemma {:induction false} NothingFollows(partial: Bytes, incoming: Bytes)
    requires FollowsFrames(partial, incoming, [])
    ensures partial == [] && incoming == []
  {
  }

  lemma {:induction false} NothingToRead(c: Cipher, r: Reader, socket: SocketState)
    requires r.fd >= 0 && r.localBuffer == [] && r.partial == [] && socket.incoming == []
    ensures ReadOne(c, r, socket).2.SocketError? && ReadBreaks(socket.script, socket.incoming, r.partial)
  {
    FillIs([], socket, 4);
    NoHeader([], socket);
    ReadIsFraming(c, r, socket);
  }

  // ----- one read after the other -----

  /** Reads until one hands out a packet or fails, `more` times more at most. */
  function ReadUntil(c: Cipher, r: Reader, socket: SocketState, more: nat): (Reader, SocketState, ReadResult)
    decreases more
  {
    var (r', socket', result) := ReadOne(c, r, socket);
    if more == 0 || !result.NoPacket? then (r', socket', result) else ReadUntil(c, r', socket', more - 1)
  }

  /** However short the reads, if none fails and the whole frame has been sent, they hand out the
      packet: as many calls as bytes are missing are enough. */
  lemma {:induction false} ReadsHandOut(c: Cipher, start: Bytes, r: Reader, log: seq<Packet>, sealed: seq<Packet>,
                                        socket: SocketState)
    requires Ideal(c) && |sealed| == |log| && SealedInOrder(c, start, log, sealed) && Reading(start, r, log, sealed, socket.incoming)
    requires r.sequenceNumber < |log|
    requires forall i :: 0 <= i < |socket.script| ==> socket.script[i] > 0
    requires var missing := |Frame(sealed[r.sequenceNumber])| - |r.partial|;
             |socket.script| >= missing && |socket.incoming| >= missing
    ensures ReadUntil(c, r, socket, |Frame(sealed[r.sequenceNumber])| - |r.partial|).2 == Got(log[r.sequenceNumber])
    decreases |Frame(sealed[r.sequenceNumber])| - |r.partial|
  {
    hide Frame, Frames, ReadOne, Decrypted, SealedInOrder, FollowsFrames, ReadBreaks, LetsThrough;
    ReadOneIff(c, start, r, log, sealed, socket);
    FrameIsLong(sealed[r.sequenceNumber]);
    var (r', socket', result) := ReadOne(c, r, socket);
    NothingBreaks(socket.script, socket.incoming, r.partial, |Frame(sealed[r.sequenceNumber])|);
    if result.NoPacket? {
      var moved := |r'.partial| - |r.partial|;
      assert |r'.partial| + |socket'.incoming| == |r.partial| + |socket.incoming|;
      ReadsHandOut(c, start, r', log, sealed, socket');
      MoreReadsToo(c, r', socket', |Frame(sealed[r.sequenceNumber])| - |r'.partial|,
                   |Frame(sealed[r.sequenceNumber])| - |r.partial| - 1);
    } else {
      NeverFatalHere(c, start, r, log, sealed, socket);
    }
  }

  lemma {:induction false} FrameIsLong(p: Packet)
    ensures |Frame(p)| >= 6
  {
  }

  lemma {:induction false} NeverFatalHere(c: Cipher, start: Bytes, r: Reader, log: seq<Packet>, sealed: seq<Packet>,
                                          socket: SocketState)
    requires Ideal(c) && |sealed| == |log| && SealedInOrder(c, start, log, sealed) && Reading(start, r, log, sealed, socket.incoming)
    ensures !ReadOne(c, r, socket).2.Fatal?
  {
    hide Frame, Frames, ReadMessage, Decrypted, SealedInOrder;
    ReadSocketFollowsFrames(c, start, r, log, sealed, socket);
  }

  lemma {:induction false} NothingBreaks(script: Script, incoming: Bytes, partial: Bytes, length: nat)
    requires |partial| < length && length >= 6 && forall i :: 0 <= i < |script| ==> script[i] > 0
    requires |script| >= length - |partial| && |incoming| >= length - |partial|
    ensures !ReadBreaks(script, incoming, partial)
  {
  }

  lemma {:induction false} MoreReadsToo(c: Cipher, r: Reader, socket: SocketState, n: nat, m: nat)
    requires n <= m && !ReadUntil(c, r, socket, n).2.NoPacket?
    ensures ReadUntil(c, r, socket, m) == ReadUntil(c, r, socket, n)
    decreases n
  {
    hide ReadOne;
    var (r', socket', result) := ReadOne(c, r, socket);
    if n > 0 && result.NoPacket? {
      MoreReadsToo(c, r', socket', n - 1, m - 1);
    }
  }

  // ----- the connection -----

  /** The connection closes its socket in a read if and only if a call on the socket returns an error
      or no bytes. */
  lemma {:induction false} ReadClosesIff(c: Cipher, start: Bytes, e: End, log: seq<Packet>, sealed: seq<Packet>,
                                         socket: SocketState)
    requires e.socketFd == e.reader.fd >= 0
    requires Ideal(c) && |sealed| == |log| && SealedInOrder(c, start, log, sealed) && Reading(start, e.reader, log, sealed, socket.incoming)
    ensures var (e', socket', result) := EndRead(c, e, socket);
            && (e'.socketFd == -1 <==> ReadBreaks(socket.script, socket.incoming, e.reader.partial))
            && (e'.socketFd == -1 ==> result.NoPacket?)
            && (e'.socketFd != -1 ==> e'.socketFd == e.socketFd && result == ReadOne(c, e.reader, socket).2)
  {
    hide ReadOne, SealedInOrder, Reading, ReadBreaks, Frame;
    ReadOneIff(c, start, e.reader, log, sealed, socket);
  }
}
