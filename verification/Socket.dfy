/** What the operating system may do with one connected socket: short reads, short
    writes and failures, in any finite order (src/base/SocketHandler.hpp). */
module Sockets {
  import opened Wire

  /** Each element decides one call: a negative one fails it, any other bounds how many
      bytes it moves. A socket whose script has run out fails. */
  type Script = seq<int>

  datatype SocketState = SocketState(incoming: Bytes, script: Script)

  /** `Received([])` is the end of the stream. */
  datatype IoRead = Received(bytes: Bytes) | ReadFailed

  function Min(a: int, b: int): int {
    if a <= b then a else b
  }

  /** One `read` of at most `max` bytes. */
  function SocketRead(s: SocketState, max: nat): (r: (SocketState, IoRead))
    ensures r.1.Received? ==> |r.1.bytes| <= max && r.1.bytes + r.0.incoming == s.incoming
    ensures r.1.ReadFailed? ==> r.0.incoming == s.incoming
  {
    if s.script == [] then (s, ReadFailed)
    else if s.script[0] < 0 then (s.(script := s.script[1..]), ReadFailed)
    else
      var n := Min(s.script[0], Min(max, |s.incoming|));
      assert s.incoming[..n] + s.incoming[n..] == s.incoming;
      (SocketState(s.incoming[n..], s.script[1..]), Received(s.incoming[..n]))
  }

  /** How many of `count` bytes a loop of `write` calls gets onto the socket before it
      is done or a call fails. */
  function BytesWritten(script: Script, count: nat): (n: nat)
    ensures n <= count
    decreases |script|
  {
    if script == [] || script[0] < 0 then 0
    else
      var n := Min(script[0], count);
      if n == count then n else n + BytesWritten(script[1..], count - n)
  }

  /** The calls before the first that fails. */
  function Working(script: Script): (calls: Script)
    ensures forall i :: 0 <= i < |calls| ==> calls[i] >= 0
    ensures calls <= script && (|calls| < |script| ==> script[|calls|] < 0)
  {
    if script == [] || script[0] < 0 then [] else [script[0]] + Working(script[1..])
  }

  function Sum(calls: Script): int {
    if calls == [] then 0 else calls[0] + Sum(calls[1..])
  }

  /** The loop writes all that the calls before the first failure can take, up to what there is. */
  lemma {:induction false} BytesWrittenIs(script: Script, count: nat)
    ensures BytesWritten(script, count) == Min(Sum(Working(script)), count)
    decreases |script|
  {
    SumIsCount(Working(script));
    if script != [] && script[0] >= 0 {
      assert Working(script)[1..] == Working(script[1..]);
      SumIsCount(Working(script[1..]));
      if script[0] < count {
        BytesWrittenIs(script[1..], count - script[0]);
      }
    }
  }

  lemma {:induction false} SumIsCount(calls: Script)
    requires forall i :: 0 <= i < |calls| ==> calls[i] >= 0
    ensures Sum(calls) >= 0
  {
    if calls != [] {
      SumIsCount(calls[1..]);
    }
  }

  /** The handle behind a live fd. */
  class Socket {
    var incoming: Bytes
    var outgoing: Bytes
    var script: Script

    constructor (incoming: Bytes, script: Script)
      ensures this.incoming == incoming && this.script == script && outgoing == []
    {
      this.incoming, this.script, outgoing := incoming, script, [];
    }

    ghost function State(): SocketState
      reads this
    {
      SocketState(incoming, script)
    }

    method Read(max: nat) returns (r: IoRead)
      modifies this
      ensures (State(), r) == SocketRead(old(State()), max)
      ensures outgoing == old(outgoing)
    {
      if script == [] {
        return ReadFailed;
      }
      var step := script[0];
      script := script[1..];
      if step < 0 {
        return ReadFailed;
      }
      var n := Min(step, Min(max, |incoming|));
      r := Received(incoming[..n]);
      incoming := incoming[n..];
    }

    /** Returns the count written, or -1. */
    method Write(bytes: Bytes) returns (n: int)
      modifies this
      ensures -1 <= n <= |bytes| && incoming == old(incoming)
      ensures outgoing == old(outgoing) + if n < 0 then [] else bytes[..n]
      ensures n == if old(script) == [] || old(script)[0] < 0 then -1 else Min(old(script)[0], |bytes|)
      ensures old(script) != [] ==> script == old(script)[1..]
      ensures old(script) == [] ==> script == []
    {
      if script == [] {
        return -1;
      }
      var step := script[0];
      script := script[1..];
      if step < 0 {
        return -1;
      }
      n := Min(step, |bytes|);
      outgoing := outgoing + bytes[..n];
    }
  }
}
