/** What the two ends of a channel bring about: a read on an open link hands out the next packet
    unless the socket breaks, and a packet written arrives (src/base/Connection.cpp). */
module ChannelProgress {
  import opened Wire
  import opened Crypto
  import opened Sockets
  import opened BackedWriters
  import opened BackedReaders
  import opened Connections
  import opened Channel
  import opened ChannelProof
  import opened ChannelTheorems
  import opened ReadTheorems

  lemma {:induction false} RunOneMore(c: Cipher, actions: seq<Action>, a: Action)
    ensures Run(c, Start(), actions + [a]) == Step(c, Run(c, Start(), actions), a)
  {
    hide Step;
    assert (actions + [a])[..|actions|] == actions;
  }

  /** What an end has not read yet of its socket. */
  function Unread(w: World, role: Role): Bytes
    requires SideOf(w, role).end.socketFd >= 0 && SideOf(w, role).end.socketFd in PipesOf(w, Other(role))
    requires var pipe := PipesOf(w, Other(role))[SideOf(w, role).end.socketFd]; pipe.read <= |pipe.data|
  {
    var pipe := PipesOf(w, Other(role))[SideOf(w, role).end.socketFd];
    pipe.data[pipe.read..]
  }

  /** An end on a socket can read, and stands within its peer's packets. */
  lemma {:induction false} OnASocket(c: Cipher, actions: seq<Action>, role: Role)
    requires Ideal(c) && SideOf(Run(c, Start(), actions), role).end.socketFd >= 0
    ensures var w := Run(c, Start(), actions);
            var me, peer, s := SideOf(w, role), SideOf(w, Other(role)).end.writer, SideOf(w, role).end.socketFd;
            && me.phase.Idle? && !me.fatal && me.end.reader.fd == me.end.writer.fd == s
            && s in PipesOf(w, Other(role)) && s in PipesOf(w, role)
            && var pipe := PipesOf(w, Other(role))[s];
               && pipe.read <= |pipe.data| && pipe.taken == |pipe.messages|
               && |peer.sealed| == |peer.log| && SealedInOrder(c, NonceOf(Other(role)), peer.log, peer.sealed)
               && ReaderInv(NonceOf(Other(role)), me.end.reader, peer.log, peer.sealed)
               && (me.end.reader.localBuffer == [] ==>
                     Reading(NonceOf(Other(role)), me.end.reader, peer.log, peer.sealed, pipe.data[pipe.read..]))
  {
    hide Run, InitialNonce, PairInv, SealedInOrder, ReaderInv, Frame, Frames, LengthsFit, FollowsFrames, SenderInv, ReceiverInv;
    var w := Run(c, Start(), actions);
    RunInv(c, actions);
    EitherRole(c, w, role);
    Connected(c, NonceOf(role), NonceOf(Other(role)), ViewOf(w, role), SideOf(w, Other(role)));
    var me, peer, s := SideOf(w, role), SideOf(w, Other(role)), SideOf(w, role).end.socketFd;
    UnreadFollowsFrames(peer, me, s, PipesOf(w, Other(role))[s]);
    ReaderIsBehind(NonceOf(Other(role)), me.end.reader, peer.end.writer.log, peer.end.writer.sealed);
    NeverFatal(c, actions, role);
  }

  /** A read by an end on a socket is a read of what is left there. */
  lemma {:induction false} ReadsWhatIsLeft(c: Cipher, v: View, script: Script)
    requires v.me.phase.Idle? && v.me.end.socketFd >= 0 && v.me.end.socketFd in v.inn && !v.me.fatal
    requires var pipe := v.inn[v.me.end.socketFd]; pipe.read <= |pipe.data| && pipe.taken == |pipe.messages|
    ensures var pipe := v.inn[v.me.end.socketFd];
            var v' := DoRead(c, v, script);
            v'.me.fatal || v'.me.end == EndRead(c, v.me.end, SocketState(pipe.data[pipe.read..], script)).0
  {
    hide EndRead;
  }

  lemma {:induction false} StepIsRead(c: Cipher, w: World, role: Role, script: Script)
    requires !SideOf(w, role).fatal
    ensures SideOf(Step(c, w, Act(role, Read(script))), role) == DoRead(c, ViewOf(w, role), script).me
  {
    hide DoRead;
  }

  lemma {:induction false} StepIsWrite(c: Cipher, w: World, role: Role, p: Packet, script: Script)
    requires !SideOf(w, role).fatal
    ensures var w', v' := Step(c, w, Act(role, Write(p, script))), DoWrite(c, ViewOf(w, role), p, script);
            && SideOf(w', role) == v'.me && SideOf(w', Other(role)) == SideOf(w, Other(role))
            && PipesOf(w', role) == v'.out && PipesOf(w', Other(role)) == v'.inn
  {
    hide DoWrite;
  }

  lemma {:induction false} EndAfterRead(c: Cipher, actions: seq<Action>, role: Role, script: Script)
    requires Ideal(c) && SideOf(Run(c, Start(), actions), role).end.socketFd >= 0
    ensures var w := Run(c, Start(), actions);
            var w' := Run(c, Start(), actions + [Act(role, Read(script))]);
            var s := SideOf(w, role).end.socketFd;
            && s in PipesOf(w, Other(role)) && PipesOf(w, Other(role))[s].read <= |PipesOf(w, Other(role))[s].data|
            && SideOf(w', role).end == EndRead(c, SideOf(w, role).end, SocketState(Unread(w, role), script)).0
  {
    hide Run, Step, DoRead, EndRead, SealedInOrder, ReaderInv, Reading;
    var w := Run(c, Start(), actions);
    OnASocket(c, actions, role);
    RunOneMore(c, actions, Act(role, Read(script)));
    StepIsRead(c, w, role, script);
    ReadsWhatIsLeft(c, ViewOf(w, role), script);
    NeverFatal(c, actions + [Act(role, Read(script))], role);
  }

  /** In every reachable state a read that has to use the socket closes it if and only if a call on
      the socket returns an error or no bytes, and hands out the next packet the peer accepted if
      and only if the calls let through what its frame lacks. */
  lemma {:induction false} ReadStepIff(c: Cipher, actions: seq<Action>, role: Role, script: Script)
    requires Ideal(c)
    requires var me := SideOf(Run(c, Start(), actions), role).end; me.socketFd >= 0 && me.reader.localBuffer == []
    ensures var w := Run(c, Start(), actions);
            var w' := Run(c, Start(), actions + [Act(role, Read(script))]);
            var r, r', peer := SideOf(w, role).end.reader, SideOf(w', role).end.reader, SideOf(w, Other(role)).end.writer;
            var s := SideOf(w, role).end.socketFd;
            && s in PipesOf(w, Other(role)) && PipesOf(w, Other(role))[s].read <= |PipesOf(w, Other(role))[s].data|
            && 0 <= r.sequenceNumber <= |peer.log| == |peer.sealed|
            && (SideOf(w', role).end.socketFd == -1 <==> ReadBreaks(script, Unread(w, role), r.partial))
            && (r.sequenceNumber < |peer.log| ==>
                  && |r.partial| < |Frame(peer.sealed[r.sequenceNumber])|
                  && (r'.delivered == r.delivered + [peer.log[r.sequenceNumber]] <==>
                      LetsThrough(script, Unread(w, role), r.partial, |Frame(peer.sealed[r.sequenceNumber])|)))
  {
    hide Run, ReadOne, SealedInOrder, Frame, ReadBreaks, LetsThrough, FollowsFrames;
    var w := Run(c, Start(), actions);
    var e, peer, start := SideOf(w, role).end, SideOf(w, Other(role)).end.writer, NonceOf(Other(role));
    OnASocket(c, actions, role);
    EndAfterRead(c, actions, role, script);
    var socket := SocketState(Unread(w, role), script);
    ReadOneIff(c, start, e.reader, peer.log, peer.sealed, socket);
    ReadClosesIff(c, start, e, peer.log, peer.sealed, socket);
    ReadKeepsHistory(c, e, socket);
  }

  /** Only a packet that is handed out becomes history. */
  lemma {:induction false} ReadKeepsHistory(c: Cipher, e: End, socket: SocketState)
    ensures var (e', _, _) := EndRead(c, e, socket);
            var result := ReadOne(c, e.reader, socket).2;
            e'.reader.delivered == e.reader.delivered + if result.Got? then [result.packet] else []
  {
    hide ReadMessage, Incremented, Decrypted;
    assert e.reader.delivered + [] == e.reader.delivered;
  }

  /** With a local buffer a read hands out its next packet without the socket. */
  lemma {:induction false} LocalReadHandsOut(c: Cipher, actions: seq<Action>, role: Role, script: Script)
    requires Ideal(c)
    requires var me := SideOf(Run(c, Start(), actions), role).end; me.socketFd >= 0 && me.reader.localBuffer != []
    ensures var w := Run(c, Start(), actions);
            var w' := Run(c, Start(), actions + [Act(role, Read(script))]);
            var r, r', log := SideOf(w, role).end.reader, SideOf(w', role).end.reader, SideOf(w, Other(role)).end.writer.log;
            && |r.delivered| < |log| && r'.delivered == r.delivered + [log[|r.delivered|]]
            && SideOf(w', role).end.socketFd == SideOf(w, role).end.socketFd
  {
    hide Run, SealedInOrder, Reading, Decrypted, ReadSocket;
    var w := Run(c, Start(), actions);
    var e, peer, start := SideOf(w, role).end, SideOf(w, Other(role)).end.writer, NonceOf(Other(role));
    OnASocket(c, actions, role);
    EndAfterRead(c, actions, role, script);
    ReadLocalFollowsLog(c, start, e.reader, peer.log, peer.sealed, SocketState(Unread(w, role), script));
  }

  // ----- a packet across -----

  /** An open socket that takes the whole frame gets it, and the connection stays open. */
  lemma {:induction false} WriteGoesOut(c: Cipher, v: View, p: Packet, script: Script)
    requires v.me.phase.Idle? && !p.encrypted && Fits(v.me.end.writer, p) && Ideal(c)
    requires v.me.end.socketFd == v.me.end.writer.fd >= 0 && v.me.end.socketFd in v.out
    requires script != [] && script[0] >= 4 + p.Length() + MAC_BYTES
    ensures var w, v', s := v.me.end.writer, DoWrite(c, v, p, script), v.me.end.socketFd;
            var packet := Encrypted(c, Incremented(w.nonce), p);
            && v'.me.end.socketFd == s && v'.me.end.writer.log == w.log + [p] && v'.me.end.writer.sealed == w.sealed + [packet]
            && packet.Length() == p.Length() + MAC_BYTES
            && v'.out == v.out[s := v.out[s].(data := v.out[s].data + Frame(packet))] && v'.inn == v.inn
  {
    hide Frame, Incremented, Trimmed, TotalLength;
    var packet := Encrypted(c, Incremented(v.me.end.writer.nonce), p);
    assert Frame(packet)[..|Frame(packet)|] == Frame(packet);
  }

  lemma {:induction false} OneFrameLeft(sealed: seq<Packet>, partial: Bytes, unread: Bytes, n: nat)
    requires sealed != [] && partial == [] && partial + unread == Frames(sealed[|sealed| - 1..])
    requires n >= |Frame(sealed[|sealed| - 1])|
    ensures LetsThrough([4, n], unread, [], |Frame(sealed[|sealed| - 1])|) && !ReadBreaks([4, n], unread, [])
  {
    hide Frame;
    var last := sealed[|sealed| - 1];
    FrameIsLong(last);
    assert sealed[|sealed| - 1..] == [last] && [last][1..] == [];
    assert Frames([last]) == Frame(last) + [] == Frame(last);
    assert [4, n][1..] == [n];
  }

  lemma {:induction false} NothingLeft(sealed: seq<Packet>, k: nat, partial: Bytes, unread: Bytes)
    requires k == |sealed| && partial + unread == Frames(sealed[k..])
    ensures partial == []
  {
    assert sealed[k..] == [];
  }

  lemma {:induction false} OtherSideStays(c: Cipher, w: World, role: Role, script: Script)
    ensures SideOf(Step(c, w, Act(role, Read(script))), Other(role)) == SideOf(w, Other(role))
  {
    hide DoRead;
  }

  /** When both ends are on one socket and the peer has read everything so far, a packet that is
      written is handed out by the peer's next read, if the socket lets the bytes through. */
  lemma {:induction false} WrittenIsHandedOut(c: Cipher, actions: seq<Action>, role: Role, p: Packet, n: nat)
    requires Ideal(c) && !p.encrypted && n >= 4 + p.Length() + MAC_BYTES
    requires var w := Run(c, Start(), actions);
             var me, peer := SideOf(w, role).end, SideOf(w, Other(role)).end;
             && me.socketFd == peer.socketFd >= 0 && Fits(me.writer, p)
             && peer.reader.localBuffer == [] && peer.reader.sequenceNumber == |me.writer.log|
    ensures var w := Run(c, Start(), actions);
            var w' := Run(c, Start(), actions + [Act(role, Write(p, [n]))] + [Act(Other(role), Read([4, n]))]);
            && SideOf(w', role).end.writer.log == SideOf(w, role).end.writer.log + [p]
            && SideOf(w', Other(role)).end.reader.delivered == SideOf(w, Other(role)).end.reader.delivered + [p]
            && SideOf(w', role).end.socketFd == SideOf(w', Other(role)).end.socketFd == SideOf(w, role).end.socketFd
  {
    hide Run, Step, Frame, Frames, SealedInOrder, Reading, DoWrite, ReadBreaks, LetsThrough, EndRead, ReaderInv;
    var w := Run(c, Start(), actions);
    var more := actions + [Act(role, Write(p, [n]))];
    var w1 := Run(c, Start(), more);
    AfterTheWrite(c, actions, role, p, n);
    ReadStepIff(c, more, Other(role), [4, n]);
    RunOneMore(c, more, Act(Other(role), Read([4, n])));
    OtherSideStays(c, w1, Other(role), [4, n]);
    EndAfterRead(c, more, Other(role), [4, n]);
    EndStaysOrCloses(c, SideOf(w1, Other(role)).end, SocketState(Unread(w1, Other(role)), [4, n]));
  }

  lemma {:induction false} EndStaysOrCloses(c: Cipher, e: End, socket: SocketState)
    ensures EndRead(c, e, socket).0.socketFd == e.socketFd || EndRead(c, e, socket).0.socketFd == -1
  {
    hide ReadOne;
  }

  lemma {:induction false} AfterTheWrite(c: Cipher, actions: seq<Action>, role: Role, p: Packet, n: nat)
    requires Ideal(c) && !p.encrypted && n >= 4 + p.Length() + MAC_BYTES
    requires var w := Run(c, Start(), actions);
             var me, peer := SideOf(w, role).end, SideOf(w, Other(role)).end;
             && me.socketFd == peer.socketFd >= 0 && Fits(me.writer, p)
             && peer.reader.localBuffer == [] && peer.reader.sequenceNumber == |me.writer.log|
    ensures var w := Run(c, Start(), actions);
            var w1 := Run(c, Start(), actions + [Act(role, Write(p, [n]))]);
            var peer, writer, s := SideOf(w1, Other(role)), SideOf(w1, role).end.writer, SideOf(w, role).end.socketFd;
            && peer == SideOf(w, Other(role)) && SideOf(w1, role).end.socketFd == s
            && writer.log == SideOf(w, role).end.writer.log + [p] && |writer.sealed| == |writer.log|
            && s in PipesOf(w1, role) && PipesOf(w1, role)[s].read <= |PipesOf(w1, role)[s].data|
            && peer.end.reader.partial == []
            && LetsThrough([4, n], Unread(w1, Other(role)), [], |Frame(writer.sealed[|writer.log| - 1])|)
            && !ReadBreaks([4, n], Unread(w1, Other(role)), [])
  {
    hide Run, Step, Frame, Frames, SealedInOrder, Reading, DoWrite, ReadBreaks, LetsThrough, ReaderInv;
    var w, more := Run(c, Start(), actions), actions + [Act(role, Write(p, [n]))];
    var w1 := Run(c, Start(), more);
    OnASocket(c, actions, role);
    OnASocket(c, actions, Other(role));
    RunOneMore(c, actions, Act(role, Write(p, [n])));
    StepIsWrite(c, w, role, p, [n]);
    WriteGoesOut(c, ViewOf(w, role), p, [n]);
    LiveLinkLosesNothing(c, actions, Other(role));
    LiveLinkLosesNothing(c, more, Other(role));
    var r, sealed := SideOf(w, Other(role)).end.reader, SideOf(w1, role).end.writer.sealed;
    NothingLeft(SideOf(w, role).end.writer.sealed, r.sequenceNumber, r.partial, Unread(w, Other(role)));
    FrameLength(sealed[|sealed| - 1]);
    OneFrameLeft(sealed, r.partial, Unread(w1, Other(role)), n);
  }

  lemma {:induction false} FrameLength(p: Packet)
    ensures |Frame(p)| == 4 + p.Length()
  {
  }
}
