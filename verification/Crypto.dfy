/** The per-direction nonce and the cipher it drives (src/base/CryptoHandler.cpp). */
module Crypto {
  import opened Wire

  const NONCE_BYTES: nat := 24
  const MAC_BYTES: nat := 16
  const CLIENT_SERVER_NONCE_MSB: Byte := 0
  const SERVER_CLIENT_NONCE_MSB: Byte := 1

  /** secretbox under the shared key, as a function of nonce and message. */
  datatype Cipher = Cipher(seal: (Bytes, Bytes) -> Bytes, unseal: (Bytes, Bytes) -> Option<Bytes>)

  /** All that is asked of the cipher: opening with the sealing nonce gives the
      message back, and sealing adds exactly the MAC. */
  ghost predicate Ideal(c: Cipher) {
    forall nonce: Bytes, message: Bytes {:trigger c.seal(nonce, message)} ::
      && |c.seal(nonce, message)| == |message| + MAC_BYTES
      && c.unseal(nonce, c.seal(nonce, message)) == Some(message)
  }

  /** The assumption is satisfiable. */
  lemma IdealCipherExists() returns (c: Cipher)
    ensures Ideal(c)
  {
    var mac: Bytes := seq(MAC_BYTES, _ => 0);
    c := Cipher((_, m) => mac + m, (_, b) => if |b| < MAC_BYTES then None else Some(b[MAC_BYTES..]));
    forall nonce: Bytes, message: Bytes
      ensures |c.seal(nonce, message)| == |message| + MAC_BYTES
      ensures c.unseal(nonce, c.seal(nonce, message)) == Some(message)
    {
      assert (mac + message)[MAC_BYTES..] == message;
    }
  }

  // ----- the nonce as a counter -----

  function InitialNonce(msb: Byte): (nonce: Bytes)
    ensures |nonce| == NONCE_BYTES
  {
    seq(NONCE_BYTES - 1, _ => 0 as Byte) + [msb]
  }

  /** The carry of `incrementNonce`: bytes that roll over become zero, the first that
      does not is bumped, the rest stay. */
  function Incremented(nonce: Bytes): (next: Bytes)
    ensures |next| == |nonce|
  {
    if nonce == [] then []
    else if nonce[0] == 255 then [0] + Incremented(nonce[1..])
    else [nonce[0] + 1] + nonce[1..]
  }

  /** How far the carry runs: over the leading 255s, and one byte more. */
  lemma {:induction false} CarryRun(nonce: Bytes, a: nat)
    requires a <= |nonce| && forall i :: 0 <= i < a ==> nonce[i] == 255
    ensures a == |nonce| ==> Incremented(nonce) == seq(a, _ => 0 as Byte)
    ensures a < |nonce| && nonce[a] != 255 ==>
              Incremented(nonce) == seq(a, _ => 0 as Byte) + [nonce[a] + 1] + nonce[a + 1..]
  {
    if a > 0 {
      CarryRun(nonce[1..], a - 1);
      assert seq(a, _ => 0 as Byte) == [0] + seq(a - 1, _ => 0 as Byte);
    }
  }

  /** The nonce after `count` messages. */
  function NonceAt(start: Bytes, count: nat): (nonce: Bytes)
    ensures |nonce| == |start|
  {
    if count == 0 then start else Incremented(NonceAt(start, count - 1))
  }

  /** The little-endian number a nonce spells. */
  function Value(nonce: Bytes): nat {
    if nonce == [] then 0 else nonce[0] + 256 * Value(nonce[1..])
  }

  lemma {:induction false} ValueBound(nonce: Bytes)
    ensures Value(nonce) < Power256(|nonce|)
  {
    if nonce != [] {
      ValueBound(nonce[1..]);
    }
  }

  lemma {:induction false} ValueInjective(a: Bytes, b: Bytes)
    requires |a| == |b|
    ensures a == b <==> Value(a) == Value(b)
  {
    if a != [] {
      ValueInjective(a[1..], b[1..]);
      assert a == [a[0]] + a[1..] && b == [b[0]] + b[1..];
    }
  }

  lemma {:induction false} IncrementedValue(nonce: Bytes)
    ensures Value(Incremented(nonce)) ==
            if Value(nonce) + 1 == Power256(|nonce|) then 0 else Value(nonce) + 1
  {
    if nonce != [] {
      var next := Incremented(nonce);
      ValueBound(nonce[1..]);
      if nonce[0] == 255 {
        IncrementedValue(nonce[1..]);
        assert next[1..] == Incremented(nonce[1..]);
      } else {
        assert next[1..] == nonce[1..];
      }
    }
  }

  lemma WrapIsMod(v: nat, m: nat)
    requires v < m
    ensures (if v + 1 == m then 0 else v + 1) == (v + 1) % m
  {
    if v + 1 < m {
      assert (v + 1) / m == 0;
    }
  }

  /** `incrementNonce` adds one modulo 256 to the number of nonce bytes. */
  lemma {:induction false} IncrementAddsOne(nonce: Bytes)
    ensures Power256(|nonce|) > 0
    ensures Value(Incremented(nonce)) == (Value(nonce) + 1) % Power256(|nonce|)
  {
    ValueBound(nonce);
    IncrementedValue(nonce);
    WrapIsMod(Value(nonce), Power256(|nonce|));
  }

  lemma {:induction false} NonceAtValue(start: Bytes, count: nat)
    requires Value(start) + count < Power256(|start|)
    ensures Value(NonceAt(start, count)) == Value(start) + count
  {
    if count > 0 {
      NonceAtValue(start, count - 1);
      IncrementedValue(NonceAt(start, count - 1));
    }
  }

  lemma {:induction false} ZerosValue(n: nat, msb: Byte)
    ensures Value(seq(n, _ => 0 as Byte) + [msb]) == msb as int * Power256(n)
  {
    var s: Bytes := seq(n, _ => 0 as Byte) + [msb];
    if n == 0 {
      assert s == [msb] && s[1..] == [];
    } else {
      ZerosValue(n - 1, msb);
      assert s[1..] == seq(n - 1, _ => 0 as Byte) + [msb];
      MulAssociates(msb as int, Power256(n - 1));
    }
  }

  lemma MulAssociates(a: int, b: int)
    ensures 256 * (a * b) == a * (256 * b)
  {
  }

  /** The number spelt by a nonce after `count` messages, for a nonce of any width. */
  lemma MessageNonceValue(width: nat, msb: Byte, count: nat)
    requires msb <= 1 && count < Power256(width)
    ensures var start: Bytes := seq(width, _ => 0 as Byte) + [msb];
            Value(NonceAt(start, count)) == msb as int * Power256(width) + count
  {
    ZerosValue(width, msb);
    assert Power256(width + 1) == 256 * Power256(width);
    var start: Bytes := seq(width, _ => 0 as Byte) + [msb];
    NonceAtValue(start, count);
  }

  lemma {:induction false} TopByte(nonce: Bytes)
    requires nonce != []
    ensures var top := nonce[|nonce| - 1] as int;
            top * Power256(|nonce| - 1) <= Value(nonce) < (top + 1) * Power256(|nonce| - 1)
  {
    var n := |nonce|;
    if n == 1 {
      assert nonce[1..] == [];
    } else {
      TopByte(nonce[1..]);
      MulAssociates(nonce[n - 1] as int, Power256(n - 2));
      MulAssociates(nonce[n - 1] as int + 1, Power256(n - 2));
    }
  }

  /** A multiple of `m` plus a rest determines its quotient. */
  lemma QuotientUnique(t: nat, u: nat, rest: nat, m: nat)
    requires t * m <= u * m + rest < (t + 1) * m && rest < m
    ensures t == u
  {
    assert t < u ==> (t + 1) * m <= u * m;
    assert t > u ==> t * m >= (u + 1) * m;
  }

  lemma TopByteKept(width: nat, msb: Byte, count: nat)
    requires msb <= 1 && count < Power256(width)
    ensures var start: Bytes := seq(width, _ => 0 as Byte) + [msb];
            NonceAt(start, count)[width] == msb
  {
    var start: Bytes := seq(width, _ => 0 as Byte) + [msb];
    var nonce := NonceAt(start, count);
    MessageNonceValue(width, msb, count);
    TopByte(nonce);
    QuotientUnique(nonce[width], msb, count, Power256(width));
  }

  /** Below 256^23 messages the direction byte is never touched. */
  lemma DirectionByteKept(msb: Byte, count: nat)
    requires msb <= 1 && count < Power256(NONCE_BYTES - 1)
    ensures NonceAt(InitialNonce(msb), count)[NONCE_BYTES - 1] == msb
  {
    TopByteKept(NONCE_BYTES - 1, msb, count);
  }

  /** No nonce is used twice under one key, in either direction. */
  lemma NoncesDistinct(msb1: Byte, count1: nat, msb2: Byte, count2: nat)
    requires msb1 <= 1 && msb2 <= 1
    requires count1 < Power256(NONCE_BYTES - 1) && count2 < Power256(NONCE_BYTES - 1)
    ensures NonceAt(InitialNonce(msb1), count1) == NonceAt(InitialNonce(msb2), count2)
            <==> msb1 == msb2 && count1 == count2
  {
    DirectionByteKept(msb1, count1);
    DirectionByteKept(msb2, count2);
    MessageNonceValue(NONCE_BYTES - 1, msb1, count1);
    MessageNonceValue(NONCE_BYTES - 1, msb2, count2);
  }

  // ----- the handler -----

  class CryptoHandler {
    const cipher: Cipher
    const nonce: array<Byte>

    ghost predicate Valid()
      reads this
    {
      nonce.Length == NONCE_BYTES
    }

    constructor (cipher: Cipher, nonceMSB: Byte)
      ensures Valid() && fresh(nonce)
      ensures this.cipher == cipher && nonce[..] == InitialNonce(nonceMSB)
    {
      this.cipher := cipher;
      var bytes := new Byte[NONCE_BYTES](_ => 0);
      bytes[NONCE_BYTES - 1] := nonceMSB;
      nonce := bytes;
    }

    method IncrementNonce()
      requires Valid()
      modifies nonce
      ensures nonce[..] == Incremented(old(nonce[..]))
    {
      ghost var before := nonce[..];
      ghost var n := nonce.Length;
      var a := 0;
      while a < nonce.Length
        invariant 0 <= a <= n
        invariant forall i :: 0 <= i < a ==> before[i] == 255 && nonce[i] == 0
        invariant forall i :: a <= i < n ==> nonce[i] == before[i]
      {
        nonce[a] := if nonce[a] == 255 then 0 else nonce[a] + 1;
        if nonce[a] != 0 {
          break;
        }
        a := a + 1;
      }
      CarryRun(before, a);
    }

    method Encrypt(buffer: Bytes) returns (sealed: Bytes)
      requires Valid()
      modifies nonce
      ensures nonce[..] == Incremented(old(nonce[..]))
      ensures sealed == cipher.seal(nonce[..], buffer)
    {
      IncrementNonce();
      sealed := cipher.seal(nonce[..], buffer);
    }

    /** None is the fatal "Decrypt failed"; the nonce has moved all the same. */
    method Decrypt(buffer: Bytes) returns (message: Option<Bytes>)
      requires Valid()
      modifies nonce
      ensures nonce[..] == Incremented(old(nonce[..]))
      ensures message == cipher.unseal(nonce[..], buffer)
    {
      IncrementNonce();
      message := cipher.unseal(nonce[..], buffer);
    }
  }
}
