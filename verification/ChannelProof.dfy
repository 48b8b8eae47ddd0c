/** The channel invariant holds in every reachable state, and what follows from it. */
module ChannelProof {
  import opened Wire
  import opened Crypto
  import opened Sockets
  import opened BackedWriters
  import opened BackedReaders
  import opened Connections
  import opened Channel

  // ----- closing -----

  lemma {:induction false} CloseKeepsPipe(x: Side, y: Side, s: nat, xy: Pipe, yx: Pipe)
    requires y.end.reader.sequenceNumber <= |x.end.writer.sealed|
    requires PipeInv(x, y, s, xy, yx)
    ensures PipeInv(x.(end := Closed(x.end)), y, s, xy, yx)
    ensures PipeInv(x, y.(end := Closed(y.end)), s, xy, yx)
  {
  }

  lemma {:induction false} CloseKeepsSide(c: Cipher, start: Bytes, x: Side, sockets: set<nat>)
    requires SideInv(c, start, x, sockets)
    ensures SideInv(c, start, x.(end := Closed(x.end)), sockets)
  {
    ClosedInv(c, start, x.end);
  }

  /** The fd a reader holds says nothing about what it has read. */
  lemma {:induction false} FdIsNotHeld(start: Bytes, r: Reader, r': Reader, log: seq<Packet>, sealed: seq<Packet>)
    requires |sealed| == |log| && ReaderInv(start, r, log, sealed) && r'.(fd := 0) == r.(fd := 0)
    ensures ReaderInv(start, r', log, sealed)
  {
    assert r' == r.(fd := 0).(fd := r'.fd);
  }

  lemma {:induction false} ReaderIsBehind(start: Bytes, r: Reader, log: seq<Packet>, sealed: seq<Packet>)
    requires |sealed| == |log| && ReaderInv(start, r, log, sealed)
    ensures 0 <= r.sequenceNumber <= |sealed|
  {
  }

  lemma {:induction false} CloseKeeps(c: Cipher, mine: Bytes, theirs: Bytes, v: View, peer: Side)
    requires PairInv(c, mine, theirs, v, peer)
    ensures PairInv(c, mine, theirs, v.(me := v.me.(end := Closed(v.me.end))), peer)
  {
    hide PipeInv, SideInv, ReaderInv;
    var closed := v.me.(end := Closed(v.me.end));
    var log, sealed := peer.end.writer.log, peer.end.writer.sealed;
    CloseKeepsSide(c, mine, v.me, v.out.Keys);
    FdIsNotHeld(theirs, v.me.end.reader, closed.end.reader, log, sealed);
    ReaderIsBehind(theirs, v.me.end.reader, log, sealed);
    ReaderIsBehind(mine, peer.end.reader, v.me.end.writer.log, v.me.end.writer.sealed);
    forall s | s in v.out
      ensures PipeInv(closed, peer, s, v.out[s], v.inn[s])
      ensures PipeInv(peer, closed, s, v.inn[s], v.out[s])
    {
      CloseKeepsPipe(v.me, peer, s, v.out[s], v.inn[s]);
      CloseKeepsPipe(peer, v.me, s, v.inn[s], v.out[s]);
    }
  }

  lemma {:induction false} SocketIsUsed(c: Cipher, start: Bytes, x: Side, sockets: set<nat>)
    requires SideInv(c, start, x, sockets)
    ensures x.end.socketFd >= 0 ==> x.end.socketFd in x.used
  {
  }

  // ----- writing -----

  lemma {:induction false} FramesExtend(sealed: seq<Packet>, packet: Packet, base: nat)
    requires base <= |sealed|
    ensures Frames((sealed + [packet])[base..]) == Frames(sealed[base..]) + Frame(packet)
  {
    assert (sealed + [packet])[base..] == sealed[base..] + [packet];
    FramesSnoc(sealed[base..], packet);
  }

  /** `x'` is `x` after accepting one packet, of which `n` frame bytes went on the socket. */
  ghost predicate Accepted(x: Side, x': Side, packet: Packet, n: nat) {
    && x.phase.Idle? && x' == x.(end := x'.end)
    && x'.end.reader.sequenceNumber == x.end.reader.sequenceNumber
    && x'.end.writer.sealed == x.end.writer.sealed + [packet]
    && n <= |Frame(packet)|
    && (x'.end.socketFd == x.end.socketFd || x'.end.socketFd == -1)
    && (0 <= x'.end.socketFd ==> n == |Frame(packet)|)
    && (0 <= x.end.socketFd ==> x.end.socketFd in x.used)
  }

  lemma {:induction false} WriteKeepsSender(x: Side, x': Side, s: nat, xy: Pipe, xy': Pipe, packet: Packet, n: nat)
    requires xy.base <= |x.end.writer.sealed| && SenderInv(x, s, xy) && Accepted(x, x', packet, n)
    requires xy' == if s == x.end.socketFd then xy.(data := xy.data + Frame(packet)[..n]) else xy
    ensures SenderInv(x', s, xy')
  {
    hide Frames;
    FramesExtend(x.end.writer.sealed, packet, xy.base);
    assert Frame(packet)[..|Frame(packet)|] == Frame(packet);
  }

  lemma {:induction false} WriteKeepsReceiver(x: Side, x': Side, y: Side, s: nat, xy: Pipe, xy': Pipe,
                                              packet: Packet, n: nat)
    requires xy.base <= |x.end.writer.sealed| && xy.read <= |xy.data|
    requires y.end.reader.sequenceNumber <= |x.end.writer.sealed|
    requires ReceiverInv(x, y, s, xy) && Accepted(x, x', packet, n)
    requires xy' == if s == x.end.socketFd then xy.(data := xy.data + Frame(packet)[..n]) else xy
    ensures ReceiverInv(x', y, s, xy')
  {
    hide Frames;
    var sealed, r := x.end.writer.sealed, y.end.reader.sequenceNumber;
    assert r >= xy.base ==> (sealed + [packet])[xy.base..r] == sealed[xy.base..r];
    assert xy'.data[..xy.read] == xy.data[..xy.read];
  }

  /** Accepting a packet and putting a prefix of its frame on the current socket. */
  lemma {:induction false} WriteKeepsPipe(x: Side, x': Side, y: Side, s: nat, xy: Pipe, xy': Pipe, yx: Pipe,
                                          packet: Packet, n: nat)
    requires y.end.reader.sequenceNumber <= |x.end.writer.sealed|
    requires PipeInv(x, y, s, xy, yx) && Accepted(x, x', packet, n)
    requires xy' == if s == x.end.socketFd then xy.(data := xy.data + Frame(packet)[..n]) else xy
    ensures PipeInv(x', y, s, xy', yx)
  {
    hide Frames, Frame, ReceiverInv;
    WriteKeepsSender(x, x', s, xy, xy', packet, n);
    WriteKeepsReceiver(x, x', y, s, xy, xy', packet, n);
    if |xy.messages| >= 2 {
      var k := yx.messages[0].sequenceNumber;
      assert x'.end.writer.sealed[k..xy.base] == x.end.writer.sealed[k..xy.base];
    }
  }

  lemma {:induction false} WriteKeepsReverse(x: Side, x': Side, y: Side, s: nat, yx: Pipe, xy: Pipe, xy': Pipe)
    requires x.end.reader.sequenceNumber <= |y.end.writer.sealed|
    requires PipeInv(y, x, s, yx, xy)
    requires x' == x.(end := x'.end) && x'.end.reader.(fd := 0) == x.end.reader.(fd := 0)
    requires x'.end.socketFd == x.end.socketFd || x'.end.socketFd == -1
    requires xy'.messages == xy.messages
    ensures x'.end.reader.sequenceNumber <= |y.end.writer.sealed|
    ensures PipeInv(y, x', s, yx, xy')
  {
    assert x'.end.reader.sequenceNumber == x.end.reader.(fd := 0).sequenceNumber;
    assert x'.end.reader.partial == x.end.reader.(fd := 0).partial;
  }

  lemma {:induction false} LogGrowthKeepsReader(start: Bytes, r: Reader, log: seq<Packet>, sealed: seq<Packet>,
                                                p: Packet, packet: Packet)
    requires |sealed| == |log| && ReaderInv(start, r, log, sealed)
    ensures ReaderInv(start, r, log + [p], sealed + [packet])
  {
    assert (log + [p])[..|r.delivered|] == log[..|r.delivered|];
  }

  /** What a write that is not refused does. */
  lemma {:induction false} WriteEffect(c: Cipher, start: Bytes, v: View, p: Packet, script: Script, sockets: set<nat>)
    returns (packet: Packet, n: nat)
    requires Ideal(c) && SideInv(c, start, v.me, sockets) && v.out.Keys == sockets
    requires DoWrite(c, v, p, script) != v
    ensures var x, v' := v.me, DoWrite(c, v, p, script);
            && Accepted(x, v'.me, packet, n)
            && v' == v.(me := x.(end := v'.me.end), out := v'.out)
            && v'.out.Keys == v.out.Keys
            && SideInv(c, start, v'.me, sockets)
            && v'.me.end.writer.log == x.end.writer.log + [p]
            && v'.me.end.reader.(fd := 0) == x.end.reader.(fd := 0)
            && forall s :: s in v.out ==>
                 v'.out[s] == if s == x.end.socketFd then v.out[s].(data := v.out[s].data + Frame(packet)[..n])
                              else v.out[s]
  {
    hide WriterInv, Trimmed, TotalLength, Frame, Incremented, BytesWritten;
    var w := v.me.end.writer;
    packet := Encrypted(c, Incremented(w.nonce), p);
    n := BytesWritten(script, |Frame(packet)|);
    EndWriteInv(c, start, v.me.end, p, script);
    assert packet.Length() == p.Length() + MAC_BYTES;
    assert Accepts(w, p);
  }

  lemma {:induction false} WriteKeeps(c: Cipher, mine: Bytes, theirs: Bytes, v: View, peer: Side,
                                      p: Packet, script: Script)
    requires Ideal(c) && PairInv(c, mine, theirs, v, peer)
    ensures PairInv(c, mine, theirs, DoWrite(c, v, p, script), peer)
  {
    hide DoWrite, PipeInv, SideInv, ReaderInv, Frame;
    var v' := DoWrite(c, v, p, script);
    if v' != v {
      var w := v.me.end.writer;
      var packet, n := WriteEffect(c, mine, v, p, script, v.out.Keys);
      ReaderIsBehind(theirs, v.me.end.reader, peer.end.writer.log, peer.end.writer.sealed);
      ReaderIsBehind(mine, peer.end.reader, w.log, w.sealed);
      LogGrowthKeepsReader(mine, peer.end.reader, w.log, w.sealed, p, packet);
      FdIsNotHeld(theirs, v.me.end.reader, v'.me.end.reader, peer.end.writer.log, peer.end.writer.sealed);
      forall s | s in v.out
        ensures PipeInv(v'.me, peer, s, v'.out[s], v'.inn[s])
        ensures PipeInv(peer, v'.me, s, v'.inn[s], v'.out[s])
      {
        WriteKeepsPipe(v.me, v'.me, peer, s, v.out[s], v'.out[s], v.inn[s], packet, n);
        WriteKeepsReverse(v.me, v'.me, peer, s, v.inn[s], v.out[s], v'.out[s]);
      }
    }
  }

  // ----- reading -----

  /** What is left on the socket goes on where the reader's partial message stops. */
  lemma {:induction false} UnreadFollowsFrames(x: Side, y: Side, s: nat, xy: Pipe)
    requires y.end.reader.sequenceNumber <= |x.end.writer.sealed|
    requires xy.base <= |x.end.writer.sealed| && xy.read <= |xy.data|
    requires SenderInv(x, s, xy) && ReceiverInv(x, y, s, xy) && y.end.socketFd == s
    ensures FollowsFrames(y.end.reader.partial, xy.data[xy.read..],
                          x.end.writer.sealed[y.end.reader.sequenceNumber..])
    ensures Lacks(y.end.reader.partial, x.end.writer.sealed[y.end.reader.sequenceNumber..])
  {
    var sealed, r := x.end.writer.sealed, y.end.reader;
    FramesSplit(sealed, xy.base, r.sequenceNumber);
    FollowsAfterPrefix(Frames(sealed[xy.base..r.sequenceNumber]), r.partial, xy.data[xy.read..],
                       Frames(sealed[r.sequenceNumber..]), xy.data);
  }

  lemma {:induction false} FramesSplit(sealed: seq<Packet>, i: nat, j: nat)
    requires i <= j <= |sealed|
    ensures Frames(sealed[i..]) == Frames(sealed[i..j]) + Frames(sealed[j..])
  {
    assert sealed[i..] == sealed[i..j] + sealed[j..];
    FramesConcat(sealed[i..j], sealed[j..]);
  }

  lemma {:induction false} FollowsAfterPrefix(before: Bytes, partial: Bytes, unread: Bytes, rest: Bytes, data: Bytes)
    requires |unread| <= |data| && data[|data| - |unread|..] == unread
    requires before + partial == data[..|data| - |unread|] && data <= before + rest
    ensures partial + unread <= rest
  {
    assert data == before + (partial + unread);
    CutPrefix(before, partial + unread, rest);
  }

  lemma {:induction false} CutPrefix(a: Bytes, b: Bytes, d: Bytes)
    requires a + b <= a + d
    ensures b <= d
  {
    assert b == (a + b)[|a|..] && d == (a + d)[|a|..];
  }

  /** One read on the receiving side of the current socket. */
  lemma {:induction false} ReadKeepsReceiver(x: Side, y: Side, s: nat, xy: Pipe, y': Side, incoming: Bytes)
    requires y.end.reader.sequenceNumber <= |x.end.writer.sealed|
    requires xy.base <= |x.end.writer.sealed| && xy.read <= |xy.data|
    requires ReceiverInv(x, y, s, xy) && y.end.socketFd == s && y.phase.Idle?
    requires y' == y.(end := y'.end) && (y'.end.socketFd == y.end.socketFd || y'.end.socketFd == -1)
    requires |incoming| <= |xy.data|
    requires var r, r', sealed, unread := y.end.reader, y'.end.reader, x.end.writer.sealed, xy.data[xy.read..];
             || (r'.sequenceNumber == r.sequenceNumber
                 && r'.partial + incoming == r.partial + unread
                 && FollowsFrames(r'.partial, incoming, sealed[r.sequenceNumber..])
                 && Lacks(r'.partial, sealed[r.sequenceNumber..]))
             || (r'.sequenceNumber == r.sequenceNumber + 1 <= |sealed| && r'.partial == []
                 && Frame(sealed[r.sequenceNumber]) + incoming == r.partial + unread)
    ensures ReceiverInv(x, y', s, xy.(read := |xy.data| - |incoming|))
  {
    var r, r', sealed := y.end.reader, y'.end.reader, x.end.writer.sealed;
    hide Frames, Frame, FollowsFrames;
    var before := Frames(sealed[xy.base..r.sequenceNumber]);
    if r'.sequenceNumber == r.sequenceNumber {
      TakenSoFar(before, r.partial, xy.data, xy.read, r'.partial, incoming);
      StillLacks(sealed, r.sequenceNumber, r'.partial, incoming);
    } else {
      FramesSnoc(sealed[xy.base..r.sequenceNumber], sealed[r.sequenceNumber]);
      assert sealed[xy.base..r'.sequenceNumber] == sealed[xy.base..r.sequenceNumber] + [sealed[r.sequenceNumber]];
      var frame := Frame(sealed[r.sequenceNumber]);
      TakenSoFar(before, r.partial, xy.data, xy.read, frame, incoming);
      assert (before + frame) + [] == before + frame;
    }
  }

  lemma {:induction false} TakenSoFar(before: Bytes, partial: Bytes, data: Bytes, read: nat, partial': Bytes,
                                      incoming: Bytes)
    requires read <= |data| && before + partial == data[..read] && partial' + incoming == partial + data[read..]
    requires |incoming| <= |data|
    ensures before + partial' == data[..|data| - |incoming|]
  {
    assert data == data[..read] + data[read..];
    assert (before + partial) + data[read..] == before + (partial + data[read..]);
    assert before + (partial' + incoming) == (before + partial') + incoming;
  }

  lemma {:induction false} StillLacks(sealed: seq<Packet>, k: nat, partial: Bytes, incoming: Bytes)
    requires k <= |sealed| && FollowsFrames(partial, incoming, sealed[k..]) && Lacks(partial, sealed[k..])
    ensures if k == |sealed| then partial == [] else |partial| < |Frame(sealed[k])|
  {
    hide Frames, Frame;
    if k < |sealed| {
      assert sealed[k..][0] == sealed[k];
    }
  }

  /** The other sockets, and what this end sends. */
  lemma {:induction false} ReadKeepsRest(x: Side, x': Side, y: Side, s: nat, xy: Pipe, yx: Pipe, yx': Pipe)
    requires y.end.reader.sequenceNumber <= |x.end.writer.sealed|
    requires x.end.reader.sequenceNumber <= x'.end.reader.sequenceNumber <= |y.end.writer.sealed|
    requires PipeInv(x, y, s, xy, yx) && PipeInv(y, x, s, yx, xy) && x.phase.Idle?
    requires x' == x.(end := x'.end) && x'.end.writer.sealed == x.end.writer.sealed
    requires x'.end.socketFd == x.end.socketFd || x'.end.socketFd == -1
    requires yx' == yx.(read := yx'.read) && (yx' == yx || s in x.used)
    requires x.end.socketFd != s ==> yx' == yx
    requires x.end.socketFd == s ==> yx'.read <= |yx.data| && ReceiverInv(y, x', s, yx')
    ensures PipeInv(x', y, s, xy, yx') && PipeInv(y, x', s, yx', xy)
  {
  }

  /** One read, against the packets the peer accepted. */
  lemma {:induction false} ReadOneEffect(c: Cipher, start: Bytes, r: Reader, log: seq<Packet>, sealed: seq<Packet>,
                                         socket: SocketState)
    requires Ideal(c) && |sealed| == |log| && SealedInOrder(c, start, log, sealed) && LengthsFit(sealed)
    requires ReaderInv(start, r, log, sealed) && r.fd >= 0
    requires FollowsFrames(r.partial, socket.incoming, sealed[r.sequenceNumber..])
    requires Lacks(r.partial, sealed[r.sequenceNumber..])
    ensures var (r', rest, result) := ReadOne(c, r, socket);
            && !result.Fatal?
            && ReaderInv(start, r', log, sealed) && r'.fd == r.fd
            && (|| (r'.sequenceNumber == r.sequenceNumber
                    && r'.partial + rest.incoming == r.partial + socket.incoming
                    && FollowsFrames(r'.partial, rest.incoming, sealed[r.sequenceNumber..])
                    && Lacks(r'.partial, sealed[r.sequenceNumber..]))
                || (r'.sequenceNumber == r.sequenceNumber + 1 <= |sealed| && r'.partial == []
                    && Frame(sealed[r.sequenceNumber]) + rest.incoming == r.partial + socket.incoming))
  {
    hide ReadSocket, Decrypted, SealedInOrder, FollowsFrames, LengthsFit, Frame;
    var (r', rest, result) := ReadOne(c, r, socket);
    if r.localBuffer != [] {
      ReadLocalFollowsLog(c, start, r, log, sealed, socket);
    } else {
      ReadSocketFollowsFrames(c, start, r, log, sealed, socket);
    }
    if result.Got? {
      HandOutKeepsInv(start, r, r', log, sealed);
    }
  }

  /** What a read does when it does anything. */
  lemma {:induction false} ReadEffect(c: Cipher, mine: Bytes, theirs: Bytes, v: View, peer: Side, script: Script)
    requires Ideal(c) && PairInv(c, mine, theirs, v, peer)
    requires v.me.phase.Idle? && v.me.end.socketFd >= 0
    ensures var s, v' := v.me.end.socketFd, DoRead(c, v, script);
            && s in v.inn
            && v' == v.(me := v.me.(end := v'.me.end), inn := v'.inn)
            && v'.me.end.writer.(fd := 0) == v.me.end.writer.(fd := 0)
            && (v'.me.end.socketFd == v.me.end.socketFd || v'.me.end.socketFd == -1)
            && SideInv(c, mine, v'.me, v.out.Keys)
            && ReaderInv(theirs, v'.me.end.reader, peer.end.writer.log, peer.end.writer.sealed)
            && v.me.end.reader.sequenceNumber <= v'.me.end.reader.sequenceNumber
            && v'.inn.Keys == v.inn.Keys
            && v'.inn == v.inn[s := v.inn[s].(read := v'.inn[s].read)]
            && v'.inn[s].read <= |v.inn[s].data|
            && ReceiverInv(peer, v'.me, s, v'.inn[s])
  {
    hide ReadOne, Frame, Frames, WriterInv, FollowsFrames, SideInv, DirectionInv, SenderInv, ReceiverInv, ReaderInv;
    var s := v.me.end.socketFd;
    Connected(c, mine, theirs, v, peer);
    var pipe, r := v.inn[s], v.me.end.reader;
    var log, sealed := peer.end.writer.log, peer.end.writer.sealed;
    UnreadFollowsFrames(peer, v.me, s, pipe);
    var socket := SocketState(pipe.data[pipe.read..], script);
    ReadOneEffect(c, theirs, r, log, sealed, socket);
    var (r', rest, result) := ReadOne(c, r, socket);
    var e' := v.me.end.(reader := r');
    ClosedInv(c, mine, e');
    FdIsNotHeld(theirs, r', Closed(e').reader, log, sealed);
    var x' := v.me.(end := EndRead(c, v.me.end, socket).0);
    SideAfterRead(c, mine, v.me, x', v.out.Keys);
    ReadFitsData(peer, v.me, s, pipe, r'.partial, rest.incoming);
    ReadKeepsReceiver(peer, v.me, s, pipe, x', rest.incoming);
  }

  /** What the invariant says of an end's current socket. */
  lemma {:induction false} Connected(c: Cipher, mine: Bytes, theirs: Bytes, v: View, peer: Side)
    requires PairInv(c, mine, theirs, v, peer) && v.me.end.socketFd >= 0
    ensures var s, w := v.me.end.socketFd, peer.end.writer;
            && s in v.inn && s in v.out
            && v.inn[s].taken == |v.inn[s].messages|
            && v.inn[s].read <= |v.inn[s].data| && v.inn[s].base <= |w.sealed| == |w.log|
            && v.me.end.reader.sequenceNumber <= |w.sealed|
            && SenderInv(peer, s, v.inn[s]) && ReceiverInv(peer, v.me, s, v.inn[s])
            && EndInv(c, mine, v.me.end) && v.me.phase.Idle?
            && SideInv(c, mine, v.me, v.out.Keys)
            && ReaderInv(theirs, v.me.end.reader, w.log, w.sealed)
            && SealedInOrder(c, theirs, w.log, w.sealed) && LengthsFit(w.sealed)
  {
    hide MessagesInv, SenderInv, LengthsFit, SealedInOrder;
    var s := v.me.end.socketFd;
    assert PipeInv(peer, v.me, s, v.inn[s], v.out[s]);
  }

  lemma {:induction false} SideAfterRead(c: Cipher, start: Bytes, x: Side, x': Side, sockets: set<nat>)
    requires SideInv(c, start, x, sockets) && x' == x.(end := x'.end) && EndInv(c, start, x'.end)
    requires x'.end.writer.(fd := 0) == x.end.writer.(fd := 0)
    requires x'.end.socketFd == x.end.socketFd || x'.end.socketFd == -1
    ensures SideInv(c, start, x', sockets)
  {
    hide EndInv;
    assert x'.end.writer.sealed == x.end.writer.(fd := 0).sealed;
    assert x'.end.writer.log == x.end.writer.(fd := 0).log;
  }

  lemma {:induction false} ReadFitsData(x: Side, y: Side, s: nat, xy: Pipe, partial: Bytes, incoming: Bytes)
    requires y.end.reader.sequenceNumber <= |x.end.writer.sealed|
    requires xy.base <= |x.end.writer.sealed| && xy.read <= |xy.data|
    requires ReceiverInv(x, y, s, xy) && y.end.socketFd == s
    requires || partial + incoming == y.end.reader.partial + xy.data[xy.read..]
             || exists f: Bytes :: f + incoming == y.end.reader.partial + xy.data[xy.read..]
    ensures |incoming| <= |xy.data|
  {
    hide Frames;
    assert |y.end.reader.partial| <= xy.read;
    assert |incoming| <= |y.end.reader.partial + xy.data[xy.read..]|;
  }

  lemma {:induction false} ReadKeeps(c: Cipher, mine: Bytes, theirs: Bytes, v: View, peer: Side, script: Script)
    requires Ideal(c) && PairInv(c, mine, theirs, v, peer)
    ensures PairInv(c, mine, theirs, DoRead(c, v, script), peer)
  {
    hide DoRead, PipeInv, SideInv, ReaderInv, ReceiverInv;
    var v', at := DoRead(c, v, script), v.me.end.socketFd;
    if v.me.phase.Idle? && at >= 0 {
      ReadEffect(c, mine, theirs, v, peer, script);
      SocketIsUsed(c, mine, v.me, v.out.Keys);
      var w := v.me.end.writer;
      assert v'.me.end.writer.sealed == w.(fd := 0).sealed && v'.me.end.writer.log == w.(fd := 0).log;
      ReaderIsBehind(theirs, v'.me.end.reader, peer.end.writer.log, peer.end.writer.sealed);
      ReaderIsBehind(theirs, v.me.end.reader, peer.end.writer.log, peer.end.writer.sealed);
      ReaderIsBehind(mine, peer.end.reader, w.log, w.sealed);
      forall s | s in v.out
        ensures PipeInv(v'.me, peer, s, v'.out[s], v'.inn[s])
        ensures PipeInv(peer, v'.me, s, v'.inn[s], v'.out[s])
      {
        ReadKeepsRest(v.me, v'.me, peer, s, v.out[s], v.inn[s], v'.inn[s]);
      }
    } else {
      ReadStutters(c, v, script);
    }
  }

  lemma {:induction false} ReadStutters(c: Cipher, v: View, script: Script)
    requires !v.me.phase.Idle? || v.me.end.socketFd < 0
    ensures DoRead(c, v, script) == v
  {
  }

  // ----- recovering -----

  lemma {:induction false} BeginKeepsPipe(x: Side, x': Side, y: Side, s: nat, t: nat, xy: Pipe, xy': Pipe, yx: Pipe)
    requires y.end.reader.sequenceNumber <= |x.end.writer.sealed|
    requires 0 <= x.end.reader.sequenceNumber <= |y.end.writer.sealed|
    requires PipeInv(x, y, t, xy, yx) && PipeInv(y, x, t, yx, xy)
    requires x.phase.Idle? && x.end.socketFd == -1 && s !in x.used && 0 in x.used
    requires x' == x.(phase := HeaderSent(s), used := x.used + {s})
    requires xy' == if t == s then xy.(messages := xy.messages + [Header(x.end.reader.sequenceNumber)]) else xy
    ensures PipeInv(x', y, t, xy', yx) && PipeInv(y, x', t, yx, xy')
  {
  }

  lemma {:induction false} HeaderFits(e: End)
    requires 0 <= e.reader.sequenceNumber < TWO_TO_THE_31
    ensures HeaderOf(e) == Header(e.reader.sequenceNumber)
  {
  }

  lemma {:induction false} SideAfterBegin(c: Cipher, start: Bytes, x: Side, s: nat, sockets: set<nat>)
    requires SideInv(c, start, x, sockets) && x.phase.Idle? && x.end.socketFd == -1 && s in sockets
    ensures SideInv(c, start, x.(phase := HeaderSent(s), used := x.used + {s}), sockets)
    ensures 0 in x.used
  {
    hide EndInv;
  }

  lemma {:induction false} LogFits(c: Cipher, start: Bytes, x: Side, sockets: set<nat>)
    requires SideInv(c, start, x, sockets)
    ensures |x.end.writer.log| < TWO_TO_THE_31 && WriterInv(c, start, x.end.writer)
    ensures x.end.socketFd == x.end.writer.fd >= -1 && x.used <= sockets
    ensures !x.phase.Idle? ==> x.end.socketFd == -1 && x.phase.socket in x.used
  {
    hide WriterInv;
  }

  /** Taking up a new socket on a closed end. */
  lemma {:induction false} BeginClosedKeeps(c: Cipher, mine: Bytes, theirs: Bytes, v: View, peer: Side, s: nat)
    requires PairInv(c, mine, theirs, v, peer)
    requires v.me.phase.Idle? && v.me.end.socketFd == -1 && s !in v.me.used && s in v.out
    ensures PairInv(c, mine, theirs,
                    v.(me := v.me.(phase := HeaderSent(s), used := v.me.used + {s}),
                       out := v.out[s := v.out[s].(messages := v.out[s].messages + [HeaderOf(v.me.end)])]),
                    peer)
  {
    hide PipeInv, SideInv, ReaderInv;
    var x, w := v.me, peer.end.writer;
    var x' := x.(phase := HeaderSent(s), used := x.used + {s});
    var out' := v.out[s := v.out[s].(messages := v.out[s].messages + [HeaderOf(x.end)])];
    ReaderIsBehind(theirs, x.end.reader, w.log, w.sealed);
    ReaderIsBehind(mine, peer.end.reader, x.end.writer.log, x.end.writer.sealed);
    LogFits(c, theirs, peer, v.out.Keys);
    HeaderFits(x.end);
    SideAfterBegin(c, mine, x, s, v.out.Keys);
    assert out'.Keys == v.out.Keys;
    forall t | t in v.out
      ensures PipeInv(x', peer, t, out'[t], v.inn[t]) && PipeInv(peer, x', t, v.inn[t], out'[t])
    {
      BeginKeepsPipe(x, x', peer, s, t, v.out[t], out'[t], v.inn[t]);
    }
  }

  lemma {:induction false} BeginKeeps(c: Cipher, mine: Bytes, theirs: Bytes, v: View, peer: Side, role: Role, s: nat)
    requires PairInv(c, mine, theirs, v, peer)
    ensures PairInv(c, mine, theirs, DoBegin(v, role, s), peer)
  {
    hide PairInv;
    if DoBegin(v, role, s) != v {
      var closed := v.(me := v.me.(end := Closed(v.me.end)));
      CloseKeeps(c, mine, theirs, v, peer);
      BeginClosedKeeps(c, mine, theirs, closed, peer, s);
    }
  }

  /** Answering a header that the peer sent while it stood still. */
  lemma {:induction false} AnswerKeepsPipe(x: Side, x': Side, y: Side, s: nat, t: nat,
                                           xy: Pipe, xy': Pipe, yx: Pipe, yx': Pipe, entries: seq<Bytes>)
    requires y.end.reader.sequenceNumber <= |x.end.writer.sealed|
    requires x.end.reader.sequenceNumber <= |y.end.writer.sealed|
    requires PipeInv(x, y, t, xy, yx) && PipeInv(y, x, t, yx, xy)
    requires x.phase == HeaderSent(s) && x.end.socketFd == -1 && s in x.used
    requires x' == x.(phase := CatchupSent(s))
    requires t != s ==> xy' == xy && yx' == yx
    requires t == s ==>
               && yx.taken < |yx.messages|
               && entries == SerializedAll(x.end.writer.sealed[yx.messages[0].sequenceNumber..])
               && xy' == xy.(messages := xy.messages + [Catchup(entries)], base := |x.end.writer.sealed|)
               && yx' == yx.(taken := yx.taken + 1)
    ensures PipeInv(x', y, t, xy', yx') && PipeInv(y, x', t, yx', xy')
  {
    if t == s {
      assert x.end.writer.sealed[yx.messages[0].sequenceNumber..] ==
             x.end.writer.sealed[yx.messages[0].sequenceNumber..|x.end.writer.sealed|];
    }
  }

  /** The only header there can be is an honest one, and never ahead of the writer. */
  lemma {:induction false} HeaderIsHonest(x: Side, y: Side, s: nat, xy: Pipe, yx: Pipe)
    requires 0 <= y.end.reader.sequenceNumber <= |x.end.writer.sealed|
    requires 0 <= x.end.reader.sequenceNumber <= |y.end.writer.sealed|
    requires PipeInv(x, y, s, xy, yx) && PipeInv(y, x, s, yx, xy)
    requires x.phase == HeaderSent(s)
    ensures s != 0 && yx.taken == 0 && (yx.messages == [] ==> yx.data == [])
    ensures yx.messages != [] ==>
              yx.messages[0].Header? && 0 <= yx.messages[0].sequenceNumber <= |x.end.writer.sealed|
  {
  }

  lemma {:induction false} SidePhase(c: Cipher, start: Bytes, x: Side, phase: Phase, sockets: set<nat>)
    requires SideInv(c, start, x, sockets) && !x.phase.Idle?
    requires phase.Idle? || phase == CatchupSent(x.phase.socket)
    ensures SideInv(c, start, x.(phase := phase), sockets)
  {
    hide EndInv;
  }

  lemma {:induction false} AbortKeepsPipe(x: Side, y: Side, s: nat, xy: Pipe, yx: Pipe)
    requires y.end.reader.sequenceNumber <= |x.end.writer.sealed|
    requires x.end.reader.sequenceNumber <= |y.end.writer.sealed|
    requires PipeInv(x, y, s, xy, yx) && PipeInv(y, x, s, yx, xy)
    ensures PipeInv(x.(phase := Idle), y, s, xy, yx) && PipeInv(y, x.(phase := Idle), s, yx, xy)
  {
  }

  /** Giving a handshake up, at any point, is harmless. */
  lemma {:induction false} AbortKeeps(c: Cipher, mine: Bytes, theirs: Bytes, v: View, peer: Side)
    requires PairInv(c, mine, theirs, v, peer)
    ensures PairInv(c, mine, theirs, DoAbort(v), peer)
  {
    hide PipeInv, SideInv, ReaderInv;
    var x, w := v.me, peer.end.writer;
    ReaderIsBehind(theirs, x.end.reader, w.log, w.sealed);
    ReaderIsBehind(mine, peer.end.reader, x.end.writer.log, x.end.writer.sealed);
    if x.phase.Idle? {
      assert DoAbort(v) == v;
    } else {
      SidePhase(c, mine, x, Idle, v.out.Keys);
    }
    forall s | s in v.out
      ensures PipeInv(x.(phase := Idle), peer, s, v.out[s], v.inn[s])
      ensures PipeInv(peer, x.(phase := Idle), s, v.inn[s], v.out[s])
    {
      AbortKeepsPipe(x, peer, s, v.out[s], v.inn[s]);
    }
  }

  lemma {:induction false} AnswerKeeps(c: Cipher, mine: Bytes, theirs: Bytes, v: View, peer: Side)
    requires PairInv(c, mine, theirs, v, peer)
    ensures PairInv(c, mine, theirs, DoAnswer(v), peer)
  {
    hide PipeInv, SideInv, ReaderInv, Recovered, WriterInv;
    var x, w := v.me, peer.end.writer;
    if x.phase.HeaderSent? && x.phase.socket in v.inn {
      var s := x.phase.socket;
      ReaderIsBehind(theirs, x.end.reader, w.log, w.sealed);
      ReaderIsBehind(mine, peer.end.reader, x.end.writer.log, x.end.writer.sealed);
      LogFits(c, mine, x, v.out.Keys);
      HeaderIsHonest(x, peer, s, v.out[s], v.inn[s]);
      if v.inn[s].messages != [] {
        var k := v.inn[s].messages[0].sequenceNumber;
        RecoverExact(c, mine, x.end.writer, k);
        var answer := Recovered(x.end.writer, k);
        if answer.Entries? {
          SidePhase(c, mine, x, CatchupSent(s), v.out.Keys);
          var v' := DoAnswer(v);
          assert v'.out.Keys == v.out.Keys && v'.inn.Keys == v.inn.Keys;
          forall t | t in v.out
            ensures PipeInv(v'.me, peer, t, v'.out[t], v'.inn[t]) && PipeInv(peer, v'.me, t, v'.inn[t], v'.out[t])
          {
            AnswerKeepsPipe(x, v'.me, peer, s, t, v.out[t], v'.out[t], v.inn[t], v'.inn[t], answer.entries);
          }
        } else {
          AbortKeeps(c, mine, theirs, v, peer);
        }
      }
    }
  }

  /** The catch-up that arrives is exactly what this end is missing. */
  lemma {:induction false} CatchupIsExact(x: Side, y: Side, s: nat, xy: Pipe, yx: Pipe)
    requires 0 <= y.end.reader.sequenceNumber <= |x.end.writer.sealed|
    requires 0 <= x.end.reader.sequenceNumber <= |y.end.writer.sealed|
    requires PipeInv(x, y, s, xy, yx) && PipeInv(y, x, s, yx, xy)
    requires x.phase == CatchupSent(s)
    ensures yx.taken == 1 && (|yx.messages| == 1 ==> yx.data == [])
    ensures x.end.reader.sequenceNumber <= yx.base <= |y.end.writer.sealed| || |yx.messages| == 1
    ensures |yx.messages| == 2 ==>
              yx.messages[1] == Catchup(SerializedAll(y.end.writer.sealed[x.end.reader.sequenceNumber..yx.base]))
  {
  }

  lemma {:induction false} FinishKeepsPipe(x: Side, x': Side, y: Side, s: nat, t: nat, xy: Pipe, yx: Pipe, yx': Pipe)
    requires y.end.reader.sequenceNumber <= |x.end.writer.sealed|
    requires 0 <= x.end.reader.sequenceNumber <= x'.end.reader.sequenceNumber <= |y.end.writer.sealed|
    requires PipeInv(x, y, t, xy, yx) && PipeInv(y, x, t, yx, xy)
    requires x.phase == CatchupSent(s) && x.end.socketFd == -1 && s in x.used
    requires x' == x.(phase := Idle, end := x'.end) && x'.end.socketFd == s
    requires x'.end.writer.sealed == x.end.writer.sealed
    requires t != s ==> yx' == yx
    requires t == s ==>
               && yx.taken == 1 && |yx.messages| == 2 && yx' == yx.(taken := 2)
               && x'.end.reader.sequenceNumber == yx.base && x'.end.reader.partial == []
    ensures PipeInv(x', y, t, xy, yx') && PipeInv(y, x', t, yx', xy)
  {
    if t == s {
      assert y.end.writer.sealed[yx.base..yx.base] == [];
      assert x.end.writer.sealed[xy.base..] == [];
    }
  }

  lemma {:induction false} FinishKeeps(c: Cipher, mine: Bytes, theirs: Bytes, v: View, peer: Side)
    requires PairInv(c, mine, theirs, v, peer)
    ensures PairInv(c, mine, theirs, DoFinish(v), peer)
  {
    hide PipeInv, SideInv, ReaderInv, WriterInv, SerializedAll;
    var x, w := v.me, peer.end.writer;
    if x.phase.CatchupSent? && x.phase.socket in v.inn {
      var s := x.phase.socket;
      ReaderIsBehind(theirs, x.end.reader, w.log, w.sealed);
      ReaderIsBehind(mine, peer.end.reader, x.end.writer.log, x.end.writer.sealed);
      LogFits(c, mine, x, v.out.Keys);
      CatchupIsExact(x, peer, s, v.out[s], v.inn[s]);
      PipeBounds(peer, x, s, v.inn[s], v.out[s]);
      if |v.inn[s].messages| == 2 {
        RevivalKeepsInv(theirs, x.end.reader, w.log, w.sealed, s, v.inn[s].base);
        var v' := DoFinish(v);
        SideAfterFinish(c, mine, x, s, v.inn[s].messages[1].entries, v.out.Keys);
        assert v'.inn.Keys == v.inn.Keys;
        forall t | t in v.out
          ensures PipeInv(v'.me, peer, t, v'.out[t], v'.inn[t]) && PipeInv(peer, v'.me, t, v'.inn[t], v'.out[t])
        {
          FinishKeepsPipe(x, v'.me, peer, s, t, v.out[t], v.inn[t], v'.inn[t]);
        }
      }
    }
  }

  lemma {:induction false} PipeBounds(x: Side, y: Side, s: nat, xy: Pipe, yx: Pipe)
    requires y.end.reader.sequenceNumber <= |x.end.writer.sealed|
    requires PipeInv(x, y, s, xy, yx)
    ensures xy.taken <= |xy.messages| <= 2 && xy.read <= |xy.data| && xy.base <= |x.end.writer.sealed|
  {
  }

  lemma {:induction false} SideAfterFinish(c: Cipher, start: Bytes, x: Side, s: nat, entries: seq<Bytes>, sockets: set<nat>)
    requires SideInv(c, start, x, sockets) && x.phase == CatchupSent(s)
    ensures SideInv(c, start, x.(phase := Idle, end := EndRevived(x.end, s, entries)), sockets)
  {
    EndRevivedInv(c, start, x.end, s, entries);
  }
}
