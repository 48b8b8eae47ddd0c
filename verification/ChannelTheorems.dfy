/** What holds of every run of the channel. */
module ChannelTheorems {
  import opened Wire
  import opened Crypto
  import opened Sockets
  import opened BackedWriters
  import opened BackedReaders
  import opened Connections
  import opened Channel
  import opened ChannelProof

  function Other(role: Role): Role {
    if role.Client? then Server else Client
  }

  function SideOf(w: World, role: Role): Side {
    if role.Client? then w.client else w.server
  }

  /** The pipes a role sends on. */
  function PipesOf(w: World, role: Role): map<nat, Pipe> {
    if role.Client? then w.up else w.down
  }

  function NonceOf(role: Role): Bytes {
    InitialNonce(if role.Client? then CLIENT_SERVER_NONCE_MSB else SERVER_CLIENT_NONCE_MSB)
  }

  function ViewOf(w: World, role: Role): View {
    View(SideOf(w, role), PipesOf(w, role), PipesOf(w, Other(role)))
  }

  /** The invariant as one role sees it. */
  ghost predicate RoleInv(c: Cipher, w: World, role: Role) {
    PairInv(c, NonceOf(role), NonceOf(Other(role)), ViewOf(w, role), SideOf(w, Other(role)))
  }

  lemma {:induction false} EitherRole(c: Cipher, w: World, role: Role)
    ensures RoleInv(c, w, role) <==> WorldInv(c, w)
  {
    hide PipeInv, SideInv, ReaderInv;
  }

  // ----- every reachable state -----

  lemma {:induction false} StartSide(c: Cipher, sending: Byte, receiving: Byte)
    ensures SideInv(c, InitialNonce(sending), InitialSide(sending, receiving), {0})
  {
    hide InitialNonce;
    InitialWriterInv(c, InitialNonce(sending), 0);
  }

  lemma {:induction false} StartDirection(sending: Byte, receiving: Byte)
    ensures DirectionInv(InitialNonce(sending), InitialSide(sending, receiving), InitialSide(receiving, sending),
                         map[0 := EMPTY_PIPE], map[0 := EMPTY_PIPE])
  {
    hide InitialNonce;
    var x, y := InitialSide(sending, receiving), InitialSide(receiving, sending);
    assert PipeInv(x, y, 0, EMPTY_PIPE, EMPTY_PIPE);
  }

  lemma {:induction false} StartInv(c: Cipher)
    ensures WorldInv(c, Start())
  {
    hide InitialNonce, SideInv, DirectionInv, InitialSide;
    StartSide(c, CLIENT_SERVER_NONCE_MSB, SERVER_CLIENT_NONCE_MSB);
    StartSide(c, SERVER_CLIENT_NONCE_MSB, CLIENT_SERVER_NONCE_MSB);
    StartDirection(CLIENT_SERVER_NONCE_MSB, SERVER_CLIENT_NONCE_MSB);
    StartDirection(SERVER_CLIENT_NONCE_MSB, CLIENT_SERVER_NONCE_MSB);
    assert Start().up.Keys == {0};
  }

  lemma {:induction false} OfferKeepsSide(c: Cipher, start: Bytes, x: Side, sockets: set<nat>, s: nat)
    requires SideInv(c, start, x, sockets)
    ensures SideInv(c, start, x, sockets + {s})
    ensures s !in sockets ==> s !in x.used && x.end.socketFd != s && (x.phase.Idle? || x.phase.socket != s) && s != 0
  {
    hide EndInv;
  }

  lemma {:induction false} EmptyPipeInv(x: Side, y: Side, s: nat)
    requires 0 <= y.end.reader.sequenceNumber <= |x.end.writer.sealed|
    requires s !in x.used && x.end.socketFd != s && (x.phase.Idle? || x.phase.socket != s)
    requires s !in y.used && y.end.socketFd != s && (y.phase.Idle? || y.phase.socket != s)
    ensures PipeInv(x, y, s, EMPTY_PIPE, EMPTY_PIPE)
  {
  }

  lemma {:induction false} OfferKeeps(c: Cipher, w: World, s: nat)
    requires WorldInv(c, w)
    ensures WorldInv(c, Step(c, w, Offer(s)))
  {
    hide PipeInv, SideInv, ReaderInv, InitialNonce;
    var w' := Step(c, w, Offer(s));
    if w' != w {
      OfferKeepsSide(c, NonceOf(Client), w.client, w.up.Keys, s);
      OfferKeepsSide(c, NonceOf(Server), w.server, w.up.Keys, s);
      ReaderIsBehind(NonceOf(Client), w.server.end.reader, w.client.end.writer.log, w.client.end.writer.sealed);
      ReaderIsBehind(NonceOf(Server), w.client.end.reader, w.server.end.writer.log, w.server.end.writer.sealed);
      EmptyPipeInv(w.client, w.server, s);
      EmptyPipeInv(w.server, w.client, s);
      assert w'.up.Keys == w.up.Keys + {s} && w'.down.Keys == w.down.Keys + {s};
    }
  }

  lemma {:induction false} MoveKeeps(c: Cipher, mine: Bytes, theirs: Bytes, v: View, peer: Side, role: Role, move: Move)
    requires Ideal(c) && PairInv(c, mine, theirs, v, peer)
    ensures PairInv(c, mine, theirs, Moved(c, v, role, move), peer)
  {
    hide PairInv, DoWrite, DoRead, DoBegin, DoAnswer, DoFinish, DoAbort;
    match move
    case Write(p, script) => WriteKeeps(c, mine, theirs, v, peer, p, script);
    case Read(script) => ReadKeeps(c, mine, theirs, v, peer, script);
    case Close => CloseKeeps(c, mine, theirs, v, peer);
    case Begin(s) => BeginKeeps(c, mine, theirs, v, peer, role, s);
    case Answer => AnswerKeeps(c, mine, theirs, v, peer);
    case Finish => FinishKeeps(c, mine, theirs, v, peer);
    case Abort => AbortKeeps(c, mine, theirs, v, peer);
  }

  lemma {:induction false} StepKeeps(c: Cipher, w: World, a: Action)
    requires Ideal(c) && WorldInv(c, w)
    ensures WorldInv(c, Step(c, w, a))
  {
    hide PairInv, Moved, InitialNonce;
    match a
    case Offer(s) => OfferKeeps(c, w, s);
    case Act(role, move) =>
      EitherRole(c, w, role);
      MoveKeeps(c, NonceOf(role), NonceOf(Other(role)), ViewOf(w, role), SideOf(w, Other(role)), role, move);
      EitherRole(c, Step(c, w, a), role);
  }

  /** Whatever the two hosts do, and whatever happens to their sockets, the invariant
      holds after it. */
  lemma {:induction false} RunInv(c: Cipher, actions: seq<Action>)
    requires Ideal(c)
    ensures WorldInv(c, Run(c, Start(), actions))
  {
    if actions == [] {
      StartInv(c);
    } else {
      var before := actions[..|actions| - 1];
      RunInv(c, before);
      StepKeeps(c, Run(c, Start(), before), actions[|actions| - 1]);
    }
  }

  // ----- what it means -----

  /** The packets a reader would hand out next, from its local buffer alone. */
  function Drain(c: Cipher, nonce: Bytes, entries: seq<Bytes>): Option<seq<Packet>>
    decreases |entries|
  {
    if entries == [] then Some([])
    else match Decrypted(c, Incremented(nonce), entries[0])
      case None => None
      case Some(p) => match Drain(c, Incremented(nonce), entries[1..])
        case None => None
        case Some(rest) => Some([p] + rest)
  }

  lemma {:induction false} DrainIsLog(c: Cipher, start: Bytes, log: seq<Packet>, sealed: seq<Packet>,
                                      from: nat, entries: seq<Bytes>)
    requires Ideal(c) && |sealed| == |log| && SealedInOrder(c, start, log, sealed) && from + |entries| <= |log|
    requires forall i :: 0 <= i < |entries| ==> entries[i] == sealed[from + i].Serialize()
    ensures Drain(c, NonceAt(start, from), entries) == Some(log[from..from + |entries|])
    decreases |entries|
  {
    hide Decrypted, SealedInOrder;
    if entries == [] {
      assert log[from..from] == [];
    } else {
      DecryptedIsWritten(c, start, log, sealed, from);
      DrainIsLog(c, start, log, sealed, from + 1, entries[1..]);
      assert log[from..from + |entries|] == [log[from]] + log[from + 1..from + |entries|];
    }
  }

  /** What the invariant says of one reader and its peer's packets. */
  lemma {:induction false} InStep(c: Cipher, mine: Bytes, theirs: Bytes, v: View, peer: Side)
    requires PairInv(c, mine, theirs, v, peer)
    ensures var r, w := v.me.end.reader, peer.end.writer;
            && SealedInOrder(c, theirs, w.log, w.sealed)
            && |r.delivered| + |r.localBuffer| == r.sequenceNumber <= |w.log| == |w.sealed|
            && r.delivered == w.log[..|r.delivered|]
            && (forall i :: 0 <= i < |r.localBuffer| ==> r.localBuffer[i] == w.sealed[|r.delivered| + i].Serialize())
            && r.nonce == NonceAt(theirs, |r.delivered|)
            && v.me.end.writer.nonce == NonceAt(mine, |v.me.end.writer.log|)
  {
    hide PipeInv, SealedInOrder;
  }

  /** Exactly once and in order, in every reachable state: what a reader has handed out,
      followed by what its local buffer decrypts to, is the first `sequenceNumber` packets
      its peer accepted, and there are at least that many. */
  lemma {:induction false} ExactlyOnceInOrder(c: Cipher, actions: seq<Action>, role: Role)
    requires Ideal(c)
    ensures var w := Run(c, Start(), actions);
            var reader, log := SideOf(w, role).end.reader, SideOf(w, Other(role)).end.writer.log;
            && 0 <= reader.sequenceNumber <= |log|
            && Drain(c, reader.nonce, reader.localBuffer).Some?
            && reader.delivered + Drain(c, reader.nonce, reader.localBuffer).value == log[..reader.sequenceNumber]
  {
    hide Run, InitialNonce, PairInv, ReaderInv, SealedInOrder, Drain;
    var w := Run(c, Start(), actions);
    RunInv(c, actions);
    EitherRole(c, w, role);
    InStep(c, NonceOf(role), NonceOf(Other(role)), ViewOf(w, role), SideOf(w, Other(role)));
    var reader, peer := SideOf(w, role).end.reader, SideOf(w, Other(role)).end.writer;
    DrainIsLog(c, NonceOf(Other(role)), peer.log, peer.sealed, |reader.delivered|, reader.localBuffer);
    assert peer.log[..reader.sequenceNumber] ==
           peer.log[..|reader.delivered|] + peer.log[|reader.delivered|..reader.sequenceNumber];
  }

  /** None of the fatal checks can fail: no packet fails to decrypt, no message is over-filled,
      no handshake message is taken for a frame, and no peer is ever ahead of a writer. */
  lemma {:induction false} NeverFatal(c: Cipher, actions: seq<Action>, role: Role)
    requires Ideal(c)
    ensures !SideOf(Run(c, Start(), actions), role).fatal
  {
    hide PipeInv, DirectionInv, EndInv, Run, InitialNonce;
    RunInv(c, actions);
  }

  /** The nonces stay in step across every recovery: a writer's counts the packets accepted,
      a reader's those handed out, which is its sequence number less its local buffer. */
  lemma {:induction false} NoncesInStep(c: Cipher, actions: seq<Action>, role: Role)
    requires Ideal(c)
    ensures var w := Run(c, Start(), actions);
            var writer, reader := SideOf(w, role).end.writer, SideOf(w, role).end.reader;
            && writer.nonce == NonceAt(NonceOf(role), |writer.log|)
            && reader.sequenceNumber >= |reader.localBuffer|
            && reader.nonce == NonceAt(NonceOf(Other(role)), reader.sequenceNumber - |reader.localBuffer|)
  {
    hide Run, InitialNonce, PairInv, SealedInOrder;
    var w := Run(c, Start(), actions);
    RunInv(c, actions);
    EitherRole(c, w, role);
    InStep(c, NonceOf(role), NonceOf(Other(role)), ViewOf(w, role), SideOf(w, Other(role)));
  }

  /** In every run, the nonces that sealed the packets of both ends under the one key are pairwise
      distinct: within a direction, and between the two. */
  lemma {:induction false} NoNonceTwice(c: Cipher, actions: seq<Action>, role1: Role, i: nat, role2: Role, j: nat)
    requires Ideal(c)
    requires var w := Run(c, Start(), actions);
             i < |SideOf(w, role1).end.writer.log| && j < |SideOf(w, role2).end.writer.log|
    ensures var w := Run(c, Start(), actions);
            var w1, w2 := SideOf(w, role1).end.writer, SideOf(w, role2).end.writer;
            var nonce1, nonce2 := NonceAt(NonceOf(role1), i + 1), NonceAt(NonceOf(role2), j + 1);
            && |w1.sealed| == |w1.log| && |w2.sealed| == |w2.log|
            && w1.sealed[i] == Packet(true, w1.log[i].header, c.seal(nonce1, w1.log[i].payload))
            && w2.sealed[j] == Packet(true, w2.log[j].header, c.seal(nonce2, w2.log[j].payload))
            && (nonce1 == nonce2 <==> role1 == role2 && i == j)
  {
    hide Run, InitialNonce, PairInv, NonceAt, Power256;
    SealedUnder(c, actions, role1);
    SealedUnder(c, actions, role2);
    RoomForNonces();
    NoncesDistinct(if role1.Client? then CLIENT_SERVER_NONCE_MSB else SERVER_CLIENT_NONCE_MSB, i + 1,
                   if role2.Client? then CLIENT_SERVER_NONCE_MSB else SERVER_CLIENT_NONCE_MSB, j + 1);
  }

  lemma {:induction false} SealedUnder(c: Cipher, actions: seq<Action>, role: Role)
    requires Ideal(c)
    ensures var writer := SideOf(Run(c, Start(), actions), role).end.writer;
            SealedInOrder(c, NonceOf(role), writer.log, writer.sealed) && |writer.log| < TWO_TO_THE_31
  {
    hide Run, InitialNonce, PipeInv, SealedInOrder, ReaderInv, DirectionInv;
    var w := Run(c, Start(), actions);
    RunInv(c, actions);
    EitherRole(c, w, role);
  }

  /** A sequence number never runs through the 23 bytes that count. */
  lemma {:induction false} RoomForNonces()
    ensures TWO_TO_THE_31 < Power256(NONCE_BYTES - 1)
  {
    assert Power256(4) == TWO_TO_THE_32;
    Power256Grows(4, NONCE_BYTES - 1);
  }

  lemma {:induction false} Power256Grows(m: nat, n: nat)
    requires m <= n
    ensures Power256(m) <= Power256(n)
  {
    Power256Positive(m);
    if m < n {
      Power256Grows(m, n - 1);
    }
  }

  lemma {:induction false} WriteGrows(c: Cipher, v: View, p: Packet, script: Script)
    ensures v.me.end.writer.log <= DoWrite(c, v, p, script).me.end.writer.log
    ensures DoWrite(c, v, p, script).me.end.reader.delivered == v.me.end.reader.delivered
  {
    hide Frame, Trimmed, TotalLength, Incremented, BytesWritten, Encrypted;
  }

  lemma {:induction false} ReadGrows(c: Cipher, v: View, script: Script)
    ensures v.me.end.reader.delivered <= DoRead(c, v, script).me.end.reader.delivered
    ensures DoRead(c, v, script).me.end.writer.log == v.me.end.writer.log
  {
    hide ReadMessage, Incremented, Decrypted;
  }

  /** A step never takes back a packet handed out, nor one accepted. */
  lemma {:induction false} HistoryOnlyGrows(c: Cipher, w: World, a: Action, role: Role)
    ensures SideOf(w, role).end.reader.delivered <= SideOf(Step(c, w, a), role).end.reader.delivered
    ensures SideOf(w, role).end.writer.log <= SideOf(Step(c, w, a), role).end.writer.log
  {
    hide DoWrite, DoRead, Recovered, HeaderOf, Trimmed, TotalLength;
    if a.Act? && a.role == role {
      var v := ViewOf(w, role);
      match a.move
      case Write(p, script) => WriteGrows(c, v, p, script);
      case Read(script) => ReadGrows(c, v, script);
      case _ =>
    }
  }

  /** While both ends are on one socket, everything accepted and not yet received is on its
      way there: the partial message and the unread bytes are exactly the missing frames. */
  lemma {:induction false} LiveLinkLosesNothing(c: Cipher, actions: seq<Action>, role: Role)
    requires Ideal(c)
    requires var w := Run(c, Start(), actions);
             SideOf(w, role).end.socketFd == SideOf(w, Other(role)).end.socketFd >= 0
    ensures var w := Run(c, Start(), actions);
            var reader, sealed := SideOf(w, role).end.reader, SideOf(w, Other(role)).end.writer.sealed;
            var s := SideOf(w, role).end.socketFd;
            && s in PipesOf(w, Other(role))
            && var pipe := PipesOf(w, Other(role))[s];
               && pipe.read <= |pipe.data| && 0 <= reader.sequenceNumber <= |sealed|
               && reader.partial + pipe.data[pipe.read..] == Frames(sealed[reader.sequenceNumber..])
  {
    hide Run, Frames, InitialNonce, PairInv;
    var w := Run(c, Start(), actions);
    RunInv(c, actions);
    EitherRole(c, w, role);
    Connected(c, NonceOf(role), NonceOf(Other(role)), ViewOf(w, role), SideOf(w, Other(role)));
    var x, y := SideOf(w, Other(role)), SideOf(w, role);
    var s := y.end.socketFd;
    var pipe, sealed, r := PipesOf(w, Other(role))[s], x.end.writer.sealed, y.end.reader;
    FramesSplit(sealed, pipe.base, r.sequenceNumber);
    var before := Frames(sealed[pipe.base..r.sequenceNumber]);
    assert before + (r.partial + pipe.data[pipe.read..]) == pipe.data == before + Frames(sealed[r.sequenceNumber..]);
    assert (before + (r.partial + pipe.data[pipe.read..]))[|before|..] == r.partial + pipe.data[pipe.read..];
    assert (before + Frames(sealed[r.sequenceNumber..]))[|before|..] == Frames(sealed[r.sequenceNumber..]);
  }

  lemma {:induction false} FinishEffect(c: Cipher, mine: Bytes, theirs: Bytes, v: View, peer: Side)
    requires PairInv(c, mine, theirs, v, peer)
    requires v.me.phase.CatchupSent? && DoFinish(v).me.phase.Idle?
    ensures var before, after, sealed := v.me, DoFinish(v).me, peer.end.writer.sealed;
            var r, r' := before.end.reader, after.end.reader;
            && after.end.socketFd == before.phase.socket
            && 0 <= r.sequenceNumber <= r'.sequenceNumber <= |sealed|
            && r'.localBuffer == r.localBuffer + SerializedAll(sealed[r.sequenceNumber..r'.sequenceNumber])
            && r'.partial == [] && r'.delivered == r.delivered
            && (peer.phase == before.phase ==> r'.sequenceNumber == |peer.end.writer.log|)
  {
    hide PipeInv, SideInv, ReaderInv, SerializedAll;
    var me, s := v.me, v.me.phase.socket;
    ReaderIsBehind(theirs, me.end.reader, peer.end.writer.log, peer.end.writer.sealed);
    ReaderIsBehind(mine, peer.end.reader, me.end.writer.log, me.end.writer.sealed);
    CatchupIsExact(me, peer, s, v.out[s], v.inn[s]);
    PipeBounds(peer, me, s, v.inn[s], v.out[s]);
    PeerBase(peer, me, s, v.inn[s], v.out[s]);
  }

  lemma {:induction false} PeerBase(x: Side, y: Side, s: nat, xy: Pipe, yx: Pipe)
    requires y.end.reader.sequenceNumber <= |x.end.writer.sealed|
    requires PipeInv(x, y, s, xy, yx)
    ensures x.phase == CatchupSent(s) ==> xy.base == |x.end.writer.sealed|
  {
  }

  /** A recovery that completes hands the reader exactly the packets it is missing, up to
      some point; all of them, if the peer is still standing in the same handshake. */
  lemma {:induction false} RecoveryResendsTheMissing(c: Cipher, actions: seq<Action>, role: Role)
    requires Ideal(c)
    requires SideOf(Run(c, Start(), actions), role).phase.CatchupSent?
    requires SideOf(Run(c, Start(), actions + [Act(role, Finish)]), role).phase.Idle?
    ensures var w := Run(c, Start(), actions);
            var w' := Run(c, Start(), actions + [Act(role, Finish)]);
            var before, after, peer := SideOf(w, role), SideOf(w', role), SideOf(w', Other(role));
            var r, r' := before.end.reader, after.end.reader;
            && peer == SideOf(w, Other(role))
            && after.end.socketFd == before.phase.socket
            && 0 <= r.sequenceNumber <= r'.sequenceNumber <= |peer.end.writer.sealed|
            && r'.localBuffer ==
               r.localBuffer + SerializedAll(peer.end.writer.sealed[r.sequenceNumber..r'.sequenceNumber])
            && r'.partial == [] && r'.delivered == r.delivered
            && (peer.phase == before.phase ==> r'.sequenceNumber == |peer.end.writer.log|)
  {
    hide PipeInv, SideInv, DirectionInv, DoFinish, SerializedAll, InitialNonce;
    var w := Run(c, Start(), actions);
    assert (actions + [Act(role, Finish)])[..|actions|] == actions;
    assert Run(c, Start(), actions + [Act(role, Finish)]) == Step(c, w, Act(role, Finish));
    RunInv(c, actions);
    EitherRole(c, w, role);
    NotFatal(c, NonceOf(role), SideOf(w, role), PipesOf(w, role).Keys);
    FinishEffect(c, NonceOf(role), NonceOf(Other(role)), ViewOf(w, role), SideOf(w, Other(role)));
  }

  lemma {:induction false} NotFatal(c: Cipher, start: Bytes, x: Side, sockets: set<nat>)
    requires SideInv(c, start, x, sockets)
    ensures !x.fatal
  {
    hide EndInv;
  }

  /** What comes in on the socket before the answer and before the finish, when it does. */
  predicate Meets(io: Handshake, s: nat, before: map<nat, Pipe>, after: map<nat, Pipe>) {
    && (io.remoteHeader.Some? ==> Next(before, s) == Some(Header(io.remoteHeader.value)))
    && (io.remoteCatchup.Some? ==> Next(after, s) == Some(Catchup(io.remoteCatchup.value)))
  }

  /** The next message to be taken from the socket. */
  function Next(inn: map<nat, Pipe>, s: nat): Option<Message> {
    if s in inn && inn[s].taken < |inn[s].messages| then Some(inn[s].messages[inn[s].taken]) else None
  }

  /** The moves a call of `recover` stands for, while the pipes towards it become `before` and
      then `after`: it begins once its header is out, and answers once the peer's is in, unless
      the catch-up cannot be sent; it finishes or gives up. */
  function RecoverMoves(v: View, role: Role, s: nat, io: Handshake, before: map<nat, Pipe>,
                        after: map<nat, Pipe>): View
  {
    if !io.headerWritten then DoClose(v)
    else
      var begun := DoBegin(v, role, s).(inn := before);
      if io.remoteHeader.None? then DoAbort(begun)
      else if Recovered(begun.me.end.writer, io.remoteHeader.value).Entries? then
        if !io.catchupWritten then DoAbort(begun)
        else
          var answered := DoAnswer(begun).(inn := after);
          if io.remoteCatchup.None? then DoAbort(answered) else DoFinish(answered)
      else DoAnswer(begun)
  }

  /** However a call of `recover` turns out, it is those moves: it leaves the same end, has sent
      the same messages, and is fatal if and only if they are. The server drops its old socket
      before; the client has none. */
  lemma {:induction false} RecoverIsItsMoves(v: View, role: Role, s: nat, io: Handshake, before: map<nat, Pipe>,
                                             after: map<nat, Pipe>)
    requires v.me.phase.Idle? && !v.me.fatal && (role.Client? ==> v.me.end.socketFd == -1)
    requires s !in v.me.used && s in v.out && Meets(io, s, before, after)
    ensures var (end, sent, result) := EndRecovered(Closed(v.me.end), s, io);
            var v' := RecoverMoves(v, role, s, io, before, after);
            && v'.me.end == end && v'.me.used == v.me.used + (if io.headerWritten then {s} else {})
            && (v'.me.fatal <==> result.FatalRecovery?) && (v'.me.phase.Idle? <==> !result.FatalRecovery?)
            && s in v'.out && v'.out[s].messages == v.out[s].messages + sent
            && forall other :: other in v.out && other != s ==> other in v'.out && v'.out[other] == v.out[other]
  {
    hide Recovered, Revived, ReaderRevived, ToInt32, Invalidated, ReaderInvalidated;
    var hdr, messages := HeaderOf(Closed(v.me.end)), v.out[s].messages;
    assert messages + [] == messages;
    if io.remoteHeader.Some? {
      var answer := Recovered(Closed(v.me.end).writer, io.remoteHeader.value);
      if answer.Entries? {
        assert messages + [hdr] + [Catchup(answer.entries)] == messages + [hdr, Catchup(answer.entries)];
      }
    }
  }

  // ----- progress -----

  /** Two idle, disconnected ends on a fresh socket, after every move of an undisturbed
      handshake. */
  function Handshaken(c: Cipher, w: World, s: nat): World {
    var w1 := Step(c, Step(c, Step(c, w, Offer(s)), Act(Client, Begin(s))), Act(Server, Begin(s)));
    var w2 := Step(c, Step(c, w1, Act(Client, Answer)), Act(Server, Answer));
    Step(c, Step(c, w2, Act(Client, Finish)), Act(Server, Finish))
  }

  lemma {:induction false} BothBegin(c: Cipher, w: World, s: nat)
    requires s !in w.up && s !in w.down && s !in w.client.used && s !in w.server.used
    requires !w.client.fatal && w.client.phase.Idle? && w.client.end.socketFd == -1
    requires !w.server.fatal && w.server.phase.Idle? && w.server.end.socketFd == -1
    ensures Step(c, Step(c, Step(c, w, Offer(s)), Act(Client, Begin(s))), Act(Server, Begin(s))) ==
            World(w.client.(phase := HeaderSent(s), used := w.client.used + {s}),
                  w.server.(phase := HeaderSent(s), used := w.server.used + {s}),
                  w.up[s := Pipe([HeaderOf(w.client.end)], [], 0, 0, 0)],
                  w.down[s := Pipe([HeaderOf(w.server.end)], [], 0, 0, 0)])
  {
    var w1 := Step(c, w, Offer(s));
    var w2 := Step(c, w1, Act(Client, Begin(s)));
    assert [] + [HeaderOf(w.client.end)] == [HeaderOf(w.client.end)];
    assert [] + [HeaderOf(w.server.end)] == [HeaderOf(w.server.end)];
    assert w2.up == w.up[s := Pipe([HeaderOf(w.client.end)], [], 0, 0, 0)];
  }

  lemma {:induction false} BothAnswer(c: Cipher, w: World, s: nat, k1: int, k2: int)
    requires !w.client.fatal && w.client.phase == HeaderSent(s) && !w.server.fatal && w.server.phase == HeaderSent(s)
    requires s in w.up && w.up[s] == Pipe([Header(k1)], [], 0, 0, 0)
    requires s in w.down && w.down[s] == Pipe([Header(k2)], [], 0, 0, 0)
    requires Recovered(w.client.end.writer, k2).Entries? && Recovered(w.server.end.writer, k1).Entries?
    ensures var toServer, toClient :=
              Recovered(w.client.end.writer, k2).entries, Recovered(w.server.end.writer, k1).entries;
            Step(c, Step(c, w, Act(Client, Answer)), Act(Server, Answer)) ==
            World(w.client.(phase := CatchupSent(s)), w.server.(phase := CatchupSent(s)),
                  w.up[s := Pipe([Header(k1), Catchup(toServer)], [], 1, 0, |w.client.end.writer.log|)],
                  w.down[s := Pipe([Header(k2), Catchup(toClient)], [], 1, 0, |w.server.end.writer.log|)])
  {
    hide Recovered;
    var toServer, toClient := Recovered(w.client.end.writer, k2).entries, Recovered(w.server.end.writer, k1).entries;
    assert [Header(k1)] + [Catchup(toServer)] == [Header(k1), Catchup(toServer)];
    assert [Header(k2)] + [Catchup(toClient)] == [Header(k2), Catchup(toClient)];
    var w1 := Step(c, w, Act(Client, Answer));
    assert w1.up == w.up[s := Pipe([Header(k1), Catchup(toServer)], [], 0, 0, |w.client.end.writer.log|)];
    assert w1.down == w.down[s := Pipe([Header(k2)], [], 1, 0, 0)];
  }

  lemma {:induction false} BothFinish(c: Cipher, w: World, s: nat, up: Pipe, down: Pipe)
    requires !w.client.fatal && w.client.phase == CatchupSent(s) && !w.server.fatal && w.server.phase == CatchupSent(s)
    requires s in w.up && w.up[s] == up && |up.messages| == 2 && up.taken == 1 && up.messages[1].Catchup?
    requires s in w.down && w.down[s] == down && |down.messages| == 2 && down.taken == 1 && down.messages[1].Catchup?
    ensures var w' := Step(c, Step(c, w, Act(Client, Finish)), Act(Server, Finish));
            && w'.client == w.client.(phase := Idle, end := EndRevived(w.client.end, s, down.messages[1].entries))
            && w'.server == w.server.(phase := Idle, end := EndRevived(w.server.end, s, up.messages[1].entries))
  {
    hide EndRevived;
  }

  /** Two disconnected ends that still back up what the other misses are both brought fully
      up to date by one handshake that nothing disturbs. */
  lemma {:induction false} UndisturbedHandshakeCatchesUp(c: Cipher, actions: seq<Action>, s: nat)
    requires Ideal(c)
    requires var w := Run(c, Start(), actions);
             && s !in w.up
             && w.client.phase.Idle? && w.client.end.socketFd == -1
             && w.server.phase.Idle? && w.server.end.socketFd == -1
             && Recovered(w.client.end.writer, w.server.end.reader.sequenceNumber).Entries?
             && Recovered(w.server.end.writer, w.client.end.reader.sequenceNumber).Entries?
    ensures var w := Run(c, Start(), actions);
            var w' := Handshaken(c, w, s);
            && w'.client.end.socketFd == w'.server.end.socketFd == s
            && w'.client.end.writer.log == w.client.end.writer.log
            && w'.server.end.writer.log == w.server.end.writer.log
            && w'.client.end.reader.sequenceNumber == |w.server.end.writer.log|
            && w'.server.end.reader.sequenceNumber == |w.client.end.writer.log|
  {
    hide Run, InitialNonce, PairInv, Step, WriterInv, Recovered;
    var w := Run(c, Start(), actions);
    RunInv(c, actions);
    EitherRole(c, w, Server);
    var k1, k2 := w.client.end.reader.sequenceNumber, w.server.end.reader.sequenceNumber;
    BothIdle(c, NonceOf(Client), NonceOf(Server), ViewOf(w, Client), w.server, s);
    BothIdle(c, NonceOf(Server), NonceOf(Client), ViewOf(w, Server), w.client, s);
    RecoverExact(c, NonceOf(Client), w.client.end.writer, k2);
    RecoverExact(c, NonceOf(Server), w.server.end.writer, k1);
    BothBegin(c, w, s);
    var w1 := Step(c, Step(c, Step(c, w, Offer(s)), Act(Client, Begin(s))), Act(Server, Begin(s)));
    BothAnswer(c, w1, s, k1, k2);
    var w2 := Step(c, Step(c, w1, Act(Client, Answer)), Act(Server, Answer));
    BothFinish(c, w2, s, w2.up[s], w2.down[s]);
  }

  lemma {:induction false} BothIdle(c: Cipher, mine: Bytes, theirs: Bytes, v: View, peer: Side, s: nat)
    requires PairInv(c, mine, theirs, v, peer) && s !in v.out
    requires v.me.end.socketFd == -1
    ensures s !in v.inn && s !in v.me.used && !v.me.fatal
    ensures WriterInv(c, mine, v.me.end.writer) && v.me.end.writer.fd == -1
    ensures |v.me.end.writer.sealed| == |v.me.end.writer.log|
    ensures 0 <= v.me.end.reader.sequenceNumber <= |peer.end.writer.log|
    ensures HeaderOf(v.me.end) == Header(v.me.end.reader.sequenceNumber)
  {
    hide PipeInv, WriterInv, LengthsFit;
  }
}
