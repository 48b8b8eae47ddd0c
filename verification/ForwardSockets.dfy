/** Reading, writing and closing the sockets of port forwarding (src/base/SocketHandler.cpp,
    the read loops of src/terminal/forwarding/). */
module ForwardSockets {
  import opened Wire
  import opened Forwarding
  import opened Sequences

  /** One read of a socket: nothing there yet, an error, or bytes; no bytes is the end. */
  datatype Read = Again | Error | Got(bytes: Bytes)

  predicate NoEmptyChunk(events: seq<Event>) {
    forall k :: 0 <= k < |events| && events[k].Chunk? ==> events[k].bytes != []
  }

  /** What one poll reports of the reads a socket has ready. */
  function Polled(pending: seq<Read>): (events: seq<Event>)
    ensures Ordered(events) && NoEmptyChunk(events)
  {
    if pending == [] || pending[0].Again? then []
    else if pending[0].Error? then [Failed]
    else if pending[0].bytes == [] then [Closed]
    else [Chunk(pending[0].bytes)] + Polled(pending[1..])
  }

  /** What the reads of one poll leave for the next. */
  function Left(pending: seq<Read>): seq<Read> {
    if pending == [] then []
    else if pending[0].Got? && pending[0].bytes != [] then Left(pending[1..])
    else pending[1..]
  }

  /** A read that brings bytes. */
  predicate Brings(r: Read) {
    r.Got? && r.bytes != []
  }

  /** A poll reports all bytes up to the first read that brings none, as they came, and then the end
      of the stream or the error that stopped it. It leaves what is behind that read. */
  lemma {:induction false} PolledIs(pending: seq<Read>, k: nat)
    requires k <= |pending| && (forall i :: 0 <= i < k ==> Brings(pending[i])) && (k < |pending| ==> !Brings(pending[k]))
    ensures var events := Polled(pending);
            && |events| == k + (if k == |pending| || pending[k].Again? then 0 else 1)
            && (forall i :: 0 <= i < k ==> pending[i].Got? && events[i] == Chunk(pending[i].bytes))
            && (k < |pending| && pending[k].Error? ==> events[k] == Failed)
            && (k < |pending| && pending[k].Got? ==> events[k] == Closed)
            && Left(pending) == if k < |pending| then pending[k + 1..] else []
  {
    if k > 0 {
      forall i | 0 <= i < k - 1
        ensures Brings(pending[1..][i])
      {
        assert pending[1..][i] == pending[i + 1];
      }
      PolledIs(pending[1..], k - 1);
      assert Polled(pending) == [Chunk(pending[0].bytes)] + Polled(pending[1..]);
      assert forall i :: 0 <= i < k - 1 ==> pending[1..][i] == pending[i + 1];
      assert k < |pending| ==> pending[1..][k..] == pending[k + 1..];
    }
  }

  function Ready(incoming: map<int, seq<Read>>, fd: int): seq<Read> {
    if fd in incoming then incoming[fd] else []
  }

  /** A poll reports an end if and only if it meets one before it has to wait. */
  predicate Ends(pending: seq<Read>) {
    pending != [] && (pending[0].Error? || (pending[0].Got? && (pending[0].bytes == [] || Ends(pending[1..]))))
  }

  lemma {:induction false} EndsWhenPolled(pending: seq<Read>)
    ensures Ends(pending) <==> HasEnd(Polled(pending))
  {
    var events := Polled(pending);
    if pending != [] && pending[0].Got? && pending[0].bytes != [] {
      EndsWhenPolled(pending[1..]);
      assert events[1..] == Polled(pending[1..]);
      if HasEnd(events[1..]) {
        var k :| 0 <= k < |events[1..]| && !events[1..][k].Chunk?;
        assert !events[k + 1].Chunk?;
      }
      if HasEnd(events) {
        var k :| 0 <= k < |events| && !events[k].Chunk?;
        assert events[1..][k - 1] == events[k];
      }
    } else if pending != [] && !pending[0].Again? {
      assert !events[0].Chunk?;
    }
  }

  lemma {:induction false} EventsFollow(id: int, data: seq<Message>, event: Event)
    ensures EventsOf(data + [Data(id, event)], id) == EventsOf(data, id) + [event]
    ensures forall other :: other != id ==> EventsOf(data + [Data(id, event)], other) == EventsOf(data, other)
  {
    forall other
      ensures EventsOf(data + [Data(id, event)], other) == EventsOf(data, other) + if other == id then [event] else []
    {
      EventsConcat(data, [Data(id, event)], other);
      assert EventsOf([Data(id, event)][1..], other) == [];
    }
  }

  /** One call of `write`: try again, an error, or so many bytes at most. */
  datatype Write = Retry | Fails | Wrote(bytes: nat)

  /** How many of `count` bytes get written before a call fails, writes nothing, or time is up. */
  function Accepted(outcomes: seq<Write>, count: nat): (n: nat)
    ensures n <= count
    decreases |outcomes|
  {
    if count == 0 || outcomes == [] || outcomes[0].Fails? then 0
    else if outcomes[0].Retry? then Accepted(outcomes[1..], count)
    else
      var n := if outcomes[0].bytes <= count then outcomes[0].bytes else count;
      if n == 0 then 0 else n + Accepted(outcomes[1..], count - n)
  }

  /** The calls before the first that fails or writes nothing. */
  function Lasting(outcomes: seq<Write>): (calls: seq<Write>)
    ensures calls <= outcomes && forall i :: 0 <= i < |calls| ==> calls[i] != Fails && calls[i] != Wrote(0)
    ensures |calls| < |outcomes| ==> outcomes[|calls|] == Fails || outcomes[|calls|] == Wrote(0)
  {
    if outcomes == [] || outcomes[0] == Fails || outcomes[0] == Wrote(0) then []
    else [outcomes[0]] + Lasting(outcomes[1..])
  }

  /** What these calls can take. */
  function Capacity(calls: seq<Write>): nat {
    if calls == [] then 0 else (if calls[0].Wrote? then calls[0].bytes else 0) + Capacity(calls[1..])
  }

  /** All is written that the calls before the first failure can take: a call that has to be tried
      again, or takes a part, does not stop the loop. */
  lemma {:induction false} AcceptedIs(outcomes: seq<Write>, count: nat)
    ensures Accepted(outcomes, count) == if Capacity(Lasting(outcomes)) <= count then Capacity(Lasting(outcomes)) else count
    decreases |outcomes|
  {
    if outcomes != [] && outcomes[0] != Fails && outcomes[0] != Wrote(0) {
      assert Lasting(outcomes)[1..] == Lasting(outcomes[1..]);
      AcceptedIs(outcomes[1..], if outcomes[0].Retry? then count else if outcomes[0].bytes <= count then count - outcomes[0].bytes else 0);
    }
  }

  lemma {:induction false} LongerTwice(m: map<int, Bytes>, fd: int, a: Bytes, b: Bytes)
    ensures Longer(Longer(m, fd, Chunk(a)), fd, Chunk(b)) == Longer(m, fd, Chunk(a + b))
  {
    assert At(m, fd) + a + b == At(m, fd) + (a + b);
  }

  // ----- writes that stop short -----

  predicate Fit(chunks: seq<Bytes>, written: seq<nat>) {
    |chunks| == |written| && forall i :: 0 <= i < |chunks| ==> written[i] <= |chunks[i]|
  }

  /** What reaches the socket when only so much of each chunk is written. */
  function Reached(chunks: seq<Bytes>, written: seq<nat>): Bytes
    requires Fit(chunks, written)
  {
    if chunks == [] then [] else
      assert Fit(chunks[1..], written[1..]);
      chunks[0][..written[0]] + Reached(chunks[1..], written[1..])
  }

  /** After a write that stops short nothing more is written. */
  predicate NoGap(lengths: seq<nat>, written: seq<nat>)
    requires |lengths| == |written|
  {
    forall i, j :: 0 <= i < j < |lengths| && written[i] < lengths[i] ==> written[j] == 0
  }

  predicate OfLengths(chunks: seq<Bytes>, lengths: seq<nat>) {
    |chunks| == |lengths| && forall i :: 0 <= i < |chunks| ==> |chunks[i]| == lengths[i]
  }

  /** Whatever the bytes, what reaches the socket is a prefix of what was to be written if and
      only if nothing is written after a write that stopped short. */
  lemma {:induction false} PrefixIffNoGap(lengths: seq<nat>, written: seq<nat>)
    requires |lengths| == |written| && forall i :: 0 <= i < |lengths| ==> written[i] <= lengths[i]
    ensures NoGap(lengths, written) <==>
            forall chunks :: OfLengths(chunks, lengths) ==>
                               Fit(chunks, written) && Reached(chunks, written) <= Flat(chunks)
  {
    if NoGap(lengths, written) {
      forall chunks | OfLengths(chunks, lengths)
        ensures Fit(chunks, written) && Reached(chunks, written) <= Flat(chunks)
      {
        NoGapIsPrefix(chunks, lengths, written);
      }
    } else {
      var chunks := GapBreaks(lengths, written);
    }
  }

  lemma {:induction false} NoGapIsPrefix(chunks: seq<Bytes>, lengths: seq<nat>, written: seq<nat>)
    requires OfLengths(chunks, lengths) && Fit(chunks, written) && NoGap(lengths, written)
    ensures Reached(chunks, written) <= Flat(chunks)
    decreases |chunks|
  {
    if chunks != [] {
      if written[0] == lengths[0] {
        NoGapIsPrefix(chunks[1..], lengths[1..], written[1..]);
        assert chunks[0][..written[0]] == chunks[0];
      } else {
        NothingReached(chunks[1..], written[1..]);
      }
    }
  }

  lemma {:induction false} NothingReached(chunks: seq<Bytes>, written: seq<nat>)
    requires Fit(chunks, written) && forall i :: 0 <= i < |written| ==> written[i] == 0
    ensures Reached(chunks, written) == []
    decreases |chunks|
  {
    if chunks != [] {
      NothingReached(chunks[1..], written[1..]);
    }
  }

  function Filled(n: nat, b: Byte): (bytes: Bytes)
    ensures |bytes| == n && forall i :: 0 <= i < n ==> bytes[i] == b
  {
    seq(n, _ => b)
  }

  lemma {:induction false} GapBreaks(lengths: seq<nat>, written: seq<nat>) returns (chunks: seq<Bytes>)
    requires |lengths| == |written| && !NoGap(lengths, written)
    requires forall i :: 0 <= i < |lengths| ==> written[i] <= lengths[i]
    ensures OfLengths(chunks, lengths) && Fit(chunks, written) && !(Reached(chunks, written) <= Flat(chunks))
    decreases |lengths|
  {
    hide Reached, Flat, Filled;
    var i, j :| 0 <= i < j < |lengths| && written[i] < lengths[i] && written[j] != 0;
    if written[0] == lengths[0] {
      assert lengths[1..][i - 1] == lengths[i] && written[1..][i - 1] == written[i] && written[1..][j - 1] != 0;
      var rest := GapBreaks(lengths[1..], written[1..]);
      var zeros := Filled(lengths[0], 0);
      chunks := [zeros] + rest;
      FirstChunk(zeros, rest, written);
      assert zeros[..written[0]] == zeros;
      PrefixUnder(zeros, Reached(rest, written[1..]), Flat(rest));
    } else {
      chunks := GapHere(lengths, written, j);
    }
  }

  lemma {:induction false} FirstChunk(first: Bytes, rest: seq<Bytes>, written: seq<nat>)
    requires written != [] && written[0] <= |first| && Fit(rest, written[1..])
    ensures Fit([first] + rest, written)
    ensures Reached([first] + rest, written) == first[..written[0]] + Reached(rest, written[1..])
    ensures Flat([first] + rest) == first + Flat(rest)
  {
    assert ([first] + rest)[1..] == rest;
    forall i | 0 <= i < |[first] + rest|
      ensures written[i] <= |([first] + rest)[i]|
    {
      if i > 0 {
        assert written[1..][i - 1] == written[i];
      }
    }
  }

  lemma {:induction false} GapHere(lengths: seq<nat>, written: seq<nat>, j: nat) returns (chunks: seq<Bytes>)
    requires |lengths| == |written| && 0 < j < |lengths| && written[0] < lengths[0] && written[j] != 0
    requires forall i :: 0 <= i < |lengths| ==> written[i] <= lengths[i]
    ensures OfLengths(chunks, lengths) && Fit(chunks, written) && !(Reached(chunks, written) <= Flat(chunks))
  {
    hide Reached, Flat, Filled;
    var zeros := Filled(lengths[0], 0);
    var rest := seq(|lengths| - 1, k requires 0 <= k < |lengths| - 1 => Filled(lengths[k + 1], 1));
    chunks := [zeros] + rest;
    FirstChunk(zeros, rest, written);
    assert written[1..][j - 1] != 0;
    OnesReached(rest, written[1..], j - 1);
    ZerosThenOnes(zeros, written[0], Reached(rest, written[1..]), Flat(rest));
  }

  lemma {:induction false} ZerosThenOnes(zeros: Bytes, n: nat, ones: Bytes, rest: Bytes)
    requires n < |zeros| && (forall i :: 0 <= i < |zeros| ==> zeros[i] == 0) && ones != [] && ones[0] == 1
    ensures !(zeros[..n] + ones <= zeros + rest)
  {
    assert (zeros[..n] + ones)[n] == 1 && (zeros + rest)[n] == 0;
  }

  lemma {:induction false} PrefixUnder(a: Bytes, b: Bytes, c: Bytes)
    ensures a + b <= a + c <==> b <= c
  {
    assert (a + b)[|a|..] == b && (a + c)[|a|..] == c;
    assert forall k :: 0 <= k < |b| ==> (a + b)[|a| + k] == b[k];
    assert forall k :: 0 <= k < |c| ==> (a + c)[|a| + k] == c[k];
  }

  lemma {:induction false} OnesReached(chunks: seq<Bytes>, written: seq<nat>, j: nat)
    requires Fit(chunks, written) && j < |written| && written[j] != 0
    requires forall k, i :: 0 <= k < |chunks| && 0 <= i < |chunks[k]| ==> chunks[k][i] == 1
    ensures Reached(chunks, written) != [] && Reached(chunks, written)[0] == 1
    decreases |chunks|
  {
    if written[0] == 0 {
      OnesReached(chunks[1..], written[1..], j - 1);
    }
  }

  /** The call yields an fd, and one that is not open. */
  predicate Usable(offer: int, open: set<int>) {
    offer >= 0 && offer !in open
  }

  /** `offer` is what comes of an `accept` or `connect`; neither yields an fd that is open. */
  function NewFd(offer: int, open: set<int>): (fd: int)
    ensures fd == -1 || (fd >= 0 && fd !in open)
  {
    if offer >= 0 && offer !in open then offer else -1
  }

  /** The process's file descriptors and what can be read from them. */
  class SocketHandler {
    var open: set<int>
    var incoming: map<int, seq<Read>>
    var outgoing: map<int, Bytes>

    constructor ()
      ensures open == {} && incoming == map[] && outgoing == map[]
    {
      open, incoming, outgoing := {}, map[], map[];
    }

    /** `accept` and `connect` */
    method Obtain(offer: int) returns (fd: int)
      modifies this`open
      ensures fd == NewFd(offer, old(open)) && (fd == -1 <==> !Usable(offer, old(open))) && (fd != -1 ==> fd == offer)
      ensures open == if fd == -1 then old(open) else old(open) + {fd}
    {
      if offer >= 0 && offer !in open {
        open := open + {offer};
        return offer;
      }
      return -1;
    }

    method Close(fd: int)
      requires fd in open
      modifies this`open
      ensures open == old(open) - {fd}
    {
      open := open - {fd};
    }

    /** Writes until done, until a call fails or writes nothing, or until time is up. */
    method WriteAllOrReturn(fd: int, data: Bytes, outcomes: seq<Write>) returns (written: nat)
      requires fd in open
      modifies this`outgoing
      ensures written == Accepted(outcomes, |data|)
      ensures outgoing == Longer(old(outgoing), fd, Chunk(data[..written]))
    {
      hide At;
      written := 0;
      var i := 0;
      outgoing := Longer(outgoing, fd, Chunk([]));
      while written < |data| && i < |outcomes|
        invariant 0 <= i <= |outcomes| && written <= |data|
        invariant Accepted(outcomes, |data|) == written + Accepted(outcomes[i..], |data| - written)
        invariant outgoing == Longer(old(outgoing), fd, Chunk(data[..written]))
        decreases |outcomes| - i
      {
        var w := outcomes[i];
        assert outcomes[i..][1..] == outcomes[i + 1..];
        i := i + 1;
        if w.Fails? || w == Wrote(0) {
          return;
        }
        if w.Wrote? {
          var n := if w.bytes <= |data| - written then w.bytes else |data| - written;
          LongerTwice(old(outgoing), fd, data[..written], data[written..written + n]);
          assert data[..written] + data[written..written + n] == data[..written + n];
          outgoing := Longer(outgoing, fd, Chunk(data[written..written + n]));
          written := written + n;
        }
      }
    }

    predicate HasData(fd: int)
      reads this
    {
      Ready(incoming, fd) != []
    }

    method ReadFrom(fd: int) returns (r: Read)
      requires HasData(fd)
      modifies this`incoming
      ensures old(Ready(incoming, fd)) == [r] + Ready(incoming, fd)
      ensures incoming == old(incoming)[fd := Ready(incoming, fd)]
      ensures forall other :: other != fd ==> Ready(incoming, other) == old(Ready(incoming, other))
    {
      r := incoming[fd][0];
      incoming := incoming[fd := incoming[fd][1..]];
    }
  }

  function EventOf(r: Read): Event
    requires !r.Again?
  {
    if r.Error? then Failed else if r.bytes == [] then Closed else Chunk(r.bytes)
  }

  lemma {:induction false} PollStep(before: seq<Read>, r: Read, after: seq<Read>)
    requires before == [r] + after
    ensures r.Again? ==> Polled(before) == [] && !Ends(before)
    ensures !r.Again? && !EventOf(r).Chunk? ==> Polled(before) == [EventOf(r)] && Ends(before)
    ensures !r.Again? && EventOf(r).Chunk? ==>
              Polled(before) == [EventOf(r)] + Polled(after) && (Ends(before) <==> Ends(after))
    ensures Left(before) == if !r.Again? && EventOf(r).Chunk? then Left(after) else after
  {
    assert before[1..] == after;
  }

  lemma {:induction false} NothingPolled()
    ensures Polled([]) == [] && !Ends([]) && Left([]) == []
  {
  }

  /** One poll has been made of each of these fds, and of no other. */
  ghost predicate TakenOff(fds: set<int>, incoming: map<int, seq<Read>>, incoming': map<int, seq<Read>>) {
    forall fd :: Ready(incoming', fd) == if fd in fds then Left(Ready(incoming, fd)) else Ready(incoming, fd)
  }

  lemma {:induction false} TakenOffInTurn(a: set<int>, b: set<int>, incoming: map<int, seq<Read>>,
                                          middle: map<int, seq<Read>>, incoming': map<int, seq<Read>>)
    requires TakenOff(a, incoming, middle) && TakenOff(b, middle, incoming') && a !! b
    ensures TakenOff(a + b, incoming, incoming')
  {
    hide Ready, Left;
  }

  /** The read loop both kinds of handler run on a socket. */
  method Poll(handler: SocketHandler, fd: int, id: int, data: seq<Message>)
    returns (data': seq<Message>, ended: bool)
    requires fd in handler.open
    modifies handler
    ensures ended <==> Ends(old(Ready(handler.incoming, fd)))
    ensures EventsOf(data', id) == EventsOf(data, id) + Polled(old(Ready(handler.incoming, fd)))
    ensures forall other :: other != id ==> EventsOf(data', other) == EventsOf(data, other)
    ensures Asked(data') == Asked(data)
    ensures handler.open == if ended then old(handler.open) - {fd} else old(handler.open)
    ensures TakenOff({fd}, old(handler.incoming), handler.incoming)
  {
    hide EventsOf, Asked, Ordered, Polled, Ends, Ready, Left;
    data' := data;
    ghost var all := Ready(handler.incoming, fd);
    while handler.HasData(fd)
      invariant EventsOf(data', id) + Polled(Ready(handler.incoming, fd)) == EventsOf(data, id) + Polled(all)
      invariant (Ends(Ready(handler.incoming, fd)) <==> Ends(all)) && Left(Ready(handler.incoming, fd)) == Left(all)
      invariant forall other :: other != id ==> EventsOf(data', other) == EventsOf(data, other)
      invariant Asked(data') == Asked(data)
      invariant handler.open == old(handler.open)
      invariant forall other :: other != fd ==> Ready(handler.incoming, other) == old(Ready(handler.incoming, other))
      decreases |Ready(handler.incoming, fd)|
    {
      ghost var before := Ready(handler.incoming, fd);
      var r := handler.ReadFrom(fd);
      PollStep(before, r, Ready(handler.incoming, fd));
      if r.Again? {
        assert Ready(handler.incoming, fd) == Left(all);
        return data', false;
      }
      var event := EventOf(r);
      EventsFollow(id, data', event);
      DataAsksNothing(data', id, event);
      data' := data' + [Data(id, event)];
      if r.Error? || r.bytes == [] {
        handler.Close(fd);
        return data', true;
      }
    }
    NothingPolled();
    ended := false;
  }

  lemma {:induction false} DataAsksNothing(data: seq<Message>, id: int, event: Event)
    ensures Asked(data + [Data(id, event)]) == Asked(data)
  {
    AskedConcat(data, [Data(id, event)]);
    assert [Data(id, event)][1..] == [];
  }
}
