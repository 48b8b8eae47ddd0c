/** The sending half of a connection: every packet is encrypted, numbered and backed up
    before any byte is sent (src/base/BackedWriter.cpp). */
module BackedWriters {
  import opened Wire
  import opened Crypto
  import opened Sockets

  const MAX_BACKUP_BYTES: int := 64 * 1024 * 1024
  const DISCONNECT_BUFFER_BYTES: int := 64 * 1024 * 1024

  /** The writer's fields. The backup is a deque with the newest packet in front.
      `log`, `sealed` and `backupAtCut` are history: the packets accepted so far, their
      encrypted form, and the backup size when the socket was last alive. */
  datatype Writer = Writer(
    fd: int,
    nonce: Bytes,
    backup: seq<Packet>,
    backupSize: int,
    disconnectedBytes: int,
    sequenceNumber: int,
    log: seq<Packet>,
    sealed: seq<Packet>,
    backupAtCut: int)

  datatype WriteResult = Skipped | Success | WroteWithFailure | BufferedOnly

  datatype RecoverResult = Entries(entries: seq<Bytes>) | FdStillAlive | TooFarBehind | AheadOfWriter

  function InitialWriter(fd: int, start: Bytes): Writer {
    Writer(fd, start, [], 0, 0, 0, [], [], 0)
  }

  function Encrypted(c: Cipher, nonce: Bytes, p: Packet): Packet {
    Packet(true, p.header, c.seal(nonce, p.payload))
  }

  function TotalLength(ps: seq<Packet>): nat {
    if ps == [] then 0 else ps[0].Length() + TotalLength(ps[1..])
  }

  lemma {:induction false} TotalLengthConcat(a: seq<Packet>, b: seq<Packet>)
    ensures TotalLength(a + b) == TotalLength(a) + TotalLength(b)
  {
    if a == [] {
      assert a + b == b;
    } else {
      assert (a + b)[1..] == a[1..] + b;
      TotalLengthConcat(a[1..], b);
    }
  }

  lemma {:induction false} TotalLengthDropLast(ps: seq<Packet>)
    requires ps != []
    ensures TotalLength(ps) == TotalLength(ps[..|ps| - 1]) + ps[|ps| - 1].Length()
  {
    TotalLengthConcat(ps[..|ps| - 1], [ps[|ps| - 1]]);
    assert ps == ps[..|ps| - 1] + [ps[|ps| - 1]];
    assert TotalLength([ps[|ps| - 1]]) == ps[|ps| - 1].Length() + TotalLength([]);
  }

  /** The trim loop: oldest packets go while the backup is over its limit. */
  function Trimmed(backup: seq<Packet>): (kept: seq<Packet>)
    ensures kept <= backup && TotalLength(kept) <= MAX_BACKUP_BYTES
  {
    if TotalLength(backup) <= MAX_BACKUP_BYTES then backup else Trimmed(backup[..|backup| - 1])
  }

  /** Trimming drops no packet it need not drop. */
  lemma {:induction false} TrimmedIsMaximal(backup: seq<Packet>, n: nat)
    requires |Trimmed(backup)| < n <= |backup|
    ensures TotalLength(backup[..n]) > 64 * 1024 * 1024
  {
    if TotalLength(backup) > MAX_BACKUP_BYTES {
      if n == |backup| {
        assert backup[..n] == backup;
      } else {
        TrimmedIsMaximal(backup[..|backup| - 1], n);
        assert backup[..|backup| - 1][..n] == backup[..n];
      }
    }
  }

  predicate Accepts(w: Writer, p: Packet) {
    w.fd >= 0 || w.disconnectedBytes + p.Length() <= DISCONNECT_BUFFER_BYTES
  }

  /** The state after `write` took a packet: the part before any byte is sent. */
  function Stored(c: Cipher, w: Writer, p: Packet): Writer {
    var nonce := Incremented(w.nonce);
    var packet := Encrypted(c, nonce, p);
    var all := [packet] + w.backup;
    var kept := if w.fd >= 0 then Trimmed(all) else all;
    var size := TotalLength(kept);
    Writer(w.fd, nonce, kept, size,
           if w.fd >= 0 then w.disconnectedBytes else w.disconnectedBytes + packet.Length(),
           w.sequenceNumber + 1, w.log + [p], w.sealed + [packet],
           if w.fd >= 0 then size else w.backupAtCut)
  }

  /** `write`, with the bytes that reach the socket. */
  function Written(c: Cipher, w: Writer, p: Packet, script: Script): (Writer, Bytes, WriteResult) {
    if !Accepts(w, p) then (w, [], Skipped)
    else
      var w' := Stored(c, w, p);
      if w.fd < 0 then (w', [], BufferedOnly)
      else
        var frame := Frame(Encrypted(c, Incremented(w.nonce), p));
        var n := BytesWritten(script, |frame|);
        (w', frame[..n], if n == |frame| then Success else WroteWithFailure)
  }

  /** `recover`: the packets after the `last`-th, oldest first. */
  function Recovered(w: Writer, last: int): RecoverResult {
    if w.fd >= 0 then FdStillAlive
    else if w.sequenceNumber < last then AheadOfWriter
    else if w.sequenceNumber - last > |w.backup| then TooFarBehind
    else Entries(OldestFirst(w.backup, w.sequenceNumber - last))
  }

  /** The newest `n` packets of the backup, serialized and reversed. */
  function OldestFirst(backup: seq<Packet>, n: nat): (entries: seq<Bytes>)
    requires n <= |backup|
    ensures |entries| == n
    ensures forall i :: 0 <= i < n ==> entries[i] == backup[n - 1 - i].Serialize()
  {
    seq(n, i requires 0 <= i < n => backup[n - 1 - i].Serialize())
  }

  function Revived(w: Writer, fd: int): Writer {
    w.(fd := fd, disconnectedBytes := 0, backupAtCut := w.backupSize)
  }

  function Invalidated(w: Writer): Writer {
    w.(fd := -1)
  }

  // ----- the invariant -----

  function SerializedAll(ps: seq<Packet>): (entries: seq<Bytes>)
    ensures |entries| == |ps|
  {
    seq(|ps|, i requires 0 <= i < |ps| => ps[i].Serialize())
  }

  /** Packets are numbered and sealed in order, under consecutive nonces. */
  ghost predicate SealedInOrder(c: Cipher, start: Bytes, log: seq<Packet>, sealed: seq<Packet>) {
    && |sealed| == |log|
    && (forall i :: 0 <= i < |log| ==> !log[i].encrypted)
    && forall i :: 0 <= i < |log| ==> sealed[i] == Encrypted(c, NonceAt(start, i + 1), log[i])
  }

  /** The backup is the newest packets, newest first. */
  ghost predicate NewestFirst(backup: seq<Packet>, sealed: seq<Packet>) {
    && |backup| <= |sealed|
    && forall i :: 0 <= i < |backup| ==> backup[i] == sealed[|sealed| - 1 - i]
  }

  /** What was dropped had to go: with one packet more the backup would have been over
      its limit. */
  ghost predicate OnlyExcessDropped(backup: seq<Packet>, sealed: seq<Packet>) {
    |backup| < |sealed| ==> TotalLength(sealed[|sealed| - |backup| - 1..]) > MAX_BACKUP_BYTES
  }

  ghost predicate BackupKeepsNewest(w: Writer) {
    && NewestFirst(w.backup, w.sealed)
    && w.backupSize == TotalLength(w.backup)
    && OnlyExcessDropped(w.backup, w.sealed)
  }

  /** The byte counters. */
  ghost predicate BytesAccounted(w: Writer) {
    && 0 <= w.disconnectedBytes <= DISCONNECT_BUFFER_BYTES + MAC_BYTES
    && (w.fd >= 0 ==> w.disconnectedBytes == 0)
    && w.backupSize == w.backupAtCut + w.disconnectedBytes
  }

  ghost predicate WriterInv(c: Cipher, start: Bytes, w: Writer) {
    && w.sequenceNumber == |w.log|
    && w.nonce == NonceAt(start, |w.log|)
    && SealedInOrder(c, start, w.log, w.sealed)
    && BackupKeepsNewest(w)
    && BytesAccounted(w)
  }

  lemma {:induction false} InitialWriterInv(c: Cipher, start: Bytes, fd: int)
    ensures WriterInv(c, start, InitialWriter(fd, start))
  {
  }

  lemma {:induction false} ReversedTotal(backup: seq<Packet>, tail: seq<Packet>)
    requires |backup| == |tail| && forall i :: 0 <= i < |tail| ==> backup[i] == tail[|tail| - 1 - i]
    ensures TotalLength(backup) == TotalLength(tail)
  {
    if backup != [] {
      var n := |tail|;
      TotalLengthDropLast(tail);
      ReversedTotal(backup[1..], tail[..n - 1]);
    }
  }

  lemma {:induction false} NewestFirstPrefix(all: seq<Packet>, sealed: seq<Packet>, k: nat)
    requires NewestFirst(all, sealed) && k <= |all|
    ensures NewestFirst(all[..k], sealed)
    ensures TotalLength(all[..k]) == TotalLength(sealed[|sealed| - k..])
  {
    ReversedTotal(all[..k], sealed[|sealed| - k..]);
  }

  lemma {:induction false} PushKeepsNewest(backup: seq<Packet>, sealed: seq<Packet>, packet: Packet)
    requires NewestFirst(backup, sealed) && OnlyExcessDropped(backup, sealed)
    ensures NewestFirst([packet] + backup, sealed + [packet])
    ensures OnlyExcessDropped([packet] + backup, sealed + [packet])
  {
    if |backup| < |sealed| {
      var from := |sealed| - |backup| - 1;
      assert (sealed + [packet])[from..] == sealed[from..] + [packet];
      TotalLengthConcat(sealed[from..], [packet]);
    }
  }

  lemma {:induction false} TrimKeepsNewest(all: seq<Packet>, sealed: seq<Packet>)
    requires NewestFirst(all, sealed) && OnlyExcessDropped(all, sealed)
    ensures NewestFirst(Trimmed(all), sealed) && OnlyExcessDropped(Trimmed(all), sealed)
  {
    var k := |Trimmed(all)|;
    assert Trimmed(all) == all[..k];
    NewestFirstPrefix(all, sealed, k);
    if k < |all| {
      TrimmedIsMaximal(all, k + 1);
      NewestFirstPrefix(all, sealed, k + 1);
    }
  }

  /** Storing keeps the backup equal to the newest packets. */
  lemma {:induction false} StoredBackup(c: Cipher, w: Writer, p: Packet)
    requires BackupKeepsNewest(w)
    ensures BackupKeepsNewest(Stored(c, w, p))
  {
    var packet := Encrypted(c, Incremented(w.nonce), p);
    PushKeepsNewest(w.backup, w.sealed, packet);
    TrimKeepsNewest([packet] + w.backup, w.sealed + [packet]);
  }

  lemma {:induction false} StoredBytes(c: Cipher, w: Writer, p: Packet)
    requires Ideal(c) && BytesAccounted(w) && BackupKeepsNewest(w) && Accepts(w, p)
    ensures BytesAccounted(Stored(c, w, p))
    ensures w.fd >= 0 ==> Stored(c, w, p).backupSize <= 64 * 1024 * 1024
    ensures w.fd < 0 ==> Stored(c, w, p).backupSize == w.backupSize + p.Length() + MAC_BYTES
  {
    var packet := Encrypted(c, Incremented(w.nonce), p);
    assert packet.Length() == p.Length() + MAC_BYTES;
    assert ([packet] + w.backup)[1..] == w.backup;
    assert TotalLength([packet] + w.backup) == packet.Length() + TotalLength(w.backup);
  }

  lemma {:induction false} StoredInv(c: Cipher, start: Bytes, w: Writer, p: Packet)
    requires Ideal(c) && WriterInv(c, start, w) && Accepts(w, p) && !p.encrypted
    ensures WriterInv(c, start, Stored(c, w, p))
  {
    hide BackupKeepsNewest, BytesAccounted, TotalLength, Trimmed;
    StoredBackup(c, w, p);
    StoredBytes(c, w, p);
    var w' := Stored(c, w, p);
    forall i | 0 <= i < |w'.log|
      ensures w'.sealed[i] == Encrypted(c, NonceAt(start, i + 1), w'.log[i])
    {
    }
  }

  lemma {:induction false} WrittenInv(c: Cipher, start: Bytes, w: Writer, p: Packet, script: Script)
    requires Ideal(c) && WriterInv(c, start, w) && !p.encrypted
    ensures WriterInv(c, start, Written(c, w, p, script).0) && Written(c, w, p, script).0.fd == w.fd
  {
    if Accepts(w, p) {
      StoredInv(c, start, w, p);
    }
  }

  lemma {:induction false} BackupSizeIsTotal(c: Cipher, start: Bytes, w: Writer)
    requires WriterInv(c, start, w)
    ensures w.backupSize == TotalLength(w.backup)
  {
  }

  lemma {:induction false} RevivedInv(c: Cipher, start: Bytes, w: Writer, fd: int)
    requires WriterInv(c, start, w) && w.fd < 0
    ensures WriterInv(c, start, Revived(w, fd)) && WriterInv(c, start, Invalidated(w))
  {
  }

  lemma {:induction false} OldestFirstIsTail(backup: seq<Packet>, sealed: seq<Packet>, n: nat)
    requires NewestFirst(backup, sealed) && n <= |backup|
    ensures OldestFirst(backup, n) == SerializedAll(sealed[|sealed| - n..])
  {
    forall i | 0 <= i < n
      ensures OldestFirst(backup, n)[i] == SerializedAll(sealed[|sealed| - n..])[i]
    {
      assert backup[n - 1 - i] == sealed[|sealed| - n..][i];
    }
  }

  /** What `recover` answers on a dead socket, for every claim the peer can make: it is
      the sealed packets after the peer's number, in order, exactly when those are all
      still backed up. */
  lemma {:induction false} RecoverExact(c: Cipher, start: Bytes, w: Writer, last: int)
    requires WriterInv(c, start, w) && w.fd < 0 && last >= 0
    ensures Recovered(w, last).AheadOfWriter? <==> last > |w.log|
    ensures Recovered(w, last).TooFarBehind? <==> last < |w.log| - |w.backup|
    ensures Recovered(w, last).Entries? <==> |w.log| - |w.backup| <= last <= |w.log|
    ensures Recovered(w, last).Entries? ==> Recovered(w, last).entries == SerializedAll(w.sealed[last..])
  {
    if Recovered(w, last).Entries? {
      OldestFirstIsTail(w.backup, w.sealed, |w.log| - last);
    }
  }

  lemma {:induction false} TotalLengthSuffix(ps: seq<Packet>, j: nat, k: nat)
    requires j <= k <= |ps|
    ensures TotalLength(ps[k..]) <= TotalLength(ps[j..])
  {
    assert ps[j..] == ps[j..k] + ps[k..];
    TotalLengthConcat(ps[j..k], ps[k..]);
  }

  lemma {:induction false} WithinLimitIsBackedUp(w: Writer, last: nat)
    requires BackupKeepsNewest(w) && last <= |w.sealed|
    requires TotalLength(w.sealed[last..]) <= MAX_BACKUP_BYTES
    ensures |w.sealed| - |w.backup| <= last
  {
    var dropped := |w.sealed| - |w.backup|;
    if last < dropped {
      TotalLengthSuffix(w.sealed, last, dropped - 1);
    }
  }

  /** A peer that misses no more than 64 MiB of packets can always be caught up. */
  lemma {:induction false} RecoverSucceedsWithinLimit(c: Cipher, start: Bytes, w: Writer, last: nat)
    requires WriterInv(c, start, w) && w.fd < 0 && last <= |w.log|
    requires TotalLength(w.sealed[last..]) <= 64 * 1024 * 1024
    ensures Recovered(w, last).Entries?
    ensures Recovered(w, last).entries == SerializedAll(w.sealed[last..])
  {
    WithinLimitIsBackedUp(w, last);
    RecoverExact(c, start, w, last);
  }

  /** While disconnected nothing is dropped: what could be recovered still can be. */
  lemma {:induction false} DisconnectedWriteDropsNothing(c: Cipher, start: Bytes, w: Writer, p: Packet, script: Script,
                                                         last: nat)
    requires Ideal(c) && WriterInv(c, start, w) && w.fd < 0 && !p.encrypted
    requires Recovered(w, last).Entries?
    ensures var w' := Written(c, w, p, script).0;
            && Recovered(w', last).Entries?
            && Recovered(w, last).entries <= Recovered(w', last).entries
  {
    var w' := Written(c, w, p, script).0;
    if Accepts(w, p) {
      StoredInv(c, start, w, p);
      RecoverExact(c, start, w', last);
    }
    RecoverExact(c, start, w, last);
  }

  // ----- the class -----

  class BackedWriter {
    const cryptoHandler: CryptoHandler
    var socketFd: int
    var backupBuffer: seq<Packet>
    var backupSize: int
    var disconnectedBytes: int
    var sequenceNumber: int
    ghost const start: Bytes
    ghost var log: seq<Packet>
    ghost var sealed: seq<Packet>
    ghost var backupAtCut: int

    ghost function State(): Writer
      reads this, cryptoHandler, cryptoHandler.nonce
    {
      Writer(socketFd, cryptoHandler.nonce[..], backupBuffer, backupSize, disconnectedBytes,
             sequenceNumber, log, sealed, backupAtCut)
    }

    ghost predicate Valid()
      reads this, cryptoHandler, cryptoHandler.nonce
    {
      && cryptoHandler.Valid()
      && WriterInv(cryptoHandler.cipher, start, State())
    }

    constructor (cryptoHandler: CryptoHandler, socketFd: int)
      requires cryptoHandler.Valid()
      ensures Valid() && this.cryptoHandler == cryptoHandler && start == cryptoHandler.nonce[..]
      ensures State() == InitialWriter(socketFd, cryptoHandler.nonce[..])
    {
      this.cryptoHandler, this.socketFd := cryptoHandler, socketFd;
      backupBuffer, backupSize, disconnectedBytes, sequenceNumber := [], 0, 0, 0;
      start, log, sealed, backupAtCut := cryptoHandler.nonce[..], [], [], 0;
      new;
      InitialWriterInv(cryptoHandler.cipher, start, socketFd);
    }

    method Write(packet: Packet, socket: Socket) returns (result: WriteResult)
      requires Ideal(cryptoHandler.cipher) && Valid() && !packet.encrypted
      modifies this, cryptoHandler.nonce, socket
      ensures Valid() && socket.incoming == old(socket.incoming)
      ensures var (w, bytes, r) :=
                Written(cryptoHandler.cipher, old(State()), packet, old(socket.script));
              State() == w && result == r && socket.outgoing == old(socket.outgoing) + bytes
      ensures result.Skipped? ==> socket.script == old(socket.script)
    {
      hide WriterInv;
      if socketFd < 0 && disconnectedBytes + packet.Length() > DISCONNECT_BUFFER_BYTES {
        assert socket.outgoing == socket.outgoing + [];
        return Skipped;
      }
      var sealedPacket := Store(packet);
      assert socket.outgoing == socket.outgoing + [];
      if socketFd < 0 {
        return BufferedOnly;
      }
      result := SendAll(Frame(sealedPacket), socket);
    }

    /** The part of `write` before any byte is sent. */
    method Store(packet: Packet) returns (sealedPacket: Packet)
      requires Ideal(cryptoHandler.cipher) && Valid() && Accepts(State(), packet) && !packet.encrypted
      modifies this, cryptoHandler.nonce
      ensures Valid() && State() == Stored(cryptoHandler.cipher, old(State()), packet)
      ensures sealedPacket == Encrypted(cryptoHandler.cipher, Incremented(old(State()).nonce), packet)
    {
      hide WriterInv, TotalLength, Trimmed, Incremented;
      ghost var before := State();
      StoredInv(cryptoHandler.cipher, start, before, packet);
      BackupSizeIsTotal(cryptoHandler.cipher, start, before);
      var payload := cryptoHandler.Encrypt(packet.payload);
      sealedPacket := Packet(true, packet.header, payload);
      assert sealedPacket == Encrypted(cryptoHandler.cipher, Incremented(before.nonce), packet);
      log, sealed := log + [packet], sealed + [sealedPacket];
      PushFront(sealedPacket);
      if socketFd < 0 {
        disconnectedBytes := disconnectedBytes + sealedPacket.Length();
      } else {
        backupAtCut := backupSize;
      }
      ghost var after := Stored(cryptoHandler.cipher, before, packet);
      assert backupBuffer == after.backup;
      assert disconnectedBytes == after.disconnectedBytes && backupAtCut == after.backupAtCut;
      assert log == after.log && sealed == after.sealed;
      assert cryptoHandler.nonce[..] == after.nonce;
      assert backupSize == after.backupSize && sequenceNumber == after.sequenceNumber;
      assert after == Writer(socketFd, cryptoHandler.nonce[..], backupBuffer, backupSize,
                             disconnectedBytes, sequenceNumber, log, sealed, backupAtCut);
    }

    /** Backs a packet up, then trims when connected. */
    method PushFront(packet: Packet)
      requires backupSize == TotalLength(backupBuffer)
      modifies this`backupBuffer, this`backupSize, this`sequenceNumber
      ensures backupBuffer ==
              if socketFd >= 0 then Trimmed([packet] + old(backupBuffer)) else [packet] + old(backupBuffer)
      ensures backupSize == TotalLength(backupBuffer) && sequenceNumber == old(sequenceNumber) + 1
    {
      backupBuffer := [packet] + backupBuffer;
      backupSize := backupSize + packet.Length();
      sequenceNumber := sequenceNumber + 1;
      assert backupBuffer[1..] == old(backupBuffer);
      ghost var all := backupBuffer;
      while socketFd >= 0 && backupSize > MAX_BACKUP_BYTES
        invariant backupSize == TotalLength(backupBuffer) && sequenceNumber == old(sequenceNumber) + 1
        invariant socketFd >= 0 ==> Trimmed(backupBuffer) == Trimmed(all)
        invariant socketFd < 0 ==> backupBuffer == all
        decreases |backupBuffer|
      {
        TotalLengthDropLast(backupBuffer);
        backupSize := backupSize - backupBuffer[|backupBuffer| - 1].Length();
        backupBuffer := backupBuffer[..|backupBuffer| - 1];
      }
    }

    /** The loop of partial socket writes. */
    method SendAll(s: Bytes, socket: Socket) returns (result: WriteResult)
      requires s != []
      modifies socket
      ensures socket.incoming == old(socket.incoming)
      ensures var n := BytesWritten(old(socket.script), |s|);
              && socket.outgoing == old(socket.outgoing) + s[..n]
              && result == if n == |s| then Success else WroteWithFailure
    {
      var bytesWritten, count := 0, |s|;
      ghost var total := BytesWritten(socket.script, count);
      ghost var sent := socket.outgoing;
      while true
        invariant 0 <= bytesWritten < count
        invariant total == bytesWritten + BytesWritten(socket.script, count - bytesWritten)
        invariant socket.outgoing == sent + s[..bytesWritten] && socket.incoming == old(socket.incoming)
        decreases |socket.script|
      {
        var n := socket.Write(s[bytesWritten..]);
        if n < 0 {
          return WroteWithFailure;
        }
        assert s[..bytesWritten] + s[bytesWritten..][..n] == s[..bytesWritten + n];
        bytesWritten := bytesWritten + n;
        if bytesWritten == count {
          return Success;
        }
      }
    }

    method Recover(lastValidSequenceNumber: int) returns (result: RecoverResult)
      ensures result == Recovered(State(), lastValidSequenceNumber)
    {
      if socketFd >= 0 {
        return FdStillAlive;
      }
      var messagesToRecover := sequenceNumber - lastValidSequenceNumber;
      if messagesToRecover < 0 {
        return AheadOfWriter;
      }
      if messagesToRecover == 0 {
        return Entries([]);
      }
      var retval: seq<Bytes> := [];
      for messagesSeen := 0 to |backupBuffer|
        invariant messagesSeen < messagesToRecover
        invariant |retval| == messagesSeen
        invariant forall i :: 0 <= i < messagesSeen ==> retval[i] == backupBuffer[i].Serialize()
      {
        retval := retval + [backupBuffer[messagesSeen].Serialize()];
        if messagesSeen + 1 == messagesToRecover {
          retval := seq(|retval|, i requires 0 <= i < |retval| => retval[|retval| - 1 - i]);
          assert retval == OldestFirst(backupBuffer, messagesToRecover);
          return Entries(retval);
        }
      }
      return TooFarBehind;
    }

    method Revive(newSocketFd: int)
      requires Valid() && socketFd < 0
      modifies this
      ensures Valid() && State() == Revived(old(State()), newSocketFd)
    {
      RevivedInv(cryptoHandler.cipher, start, State(), newSocketFd);
      socketFd, disconnectedBytes := newSocketFd, 0;
      backupAtCut := backupSize;
    }

    method InvalidateSocket()
      requires Valid()
      modifies this
      ensures Valid() && State() == Invalidated(old(State()))
    {
      socketFd := -1;
    }

    /** Room for `bytes` is room for the packet of that length. */
    method HasBufferCapacity(bytes: int) returns (room: bool)
      requires Valid()
      ensures room <==> socketFd >= 0 || disconnectedBytes + bytes <= 64 * 1024 * 1024
      ensures forall p: Packet :: p.Length() == bytes ==> room == Accepts(State(), p)
    {
      return socketFd >= 0 || disconnectedBytes + bytes <= DISCONNECT_BUFFER_BYTES;
    }
  }
}
