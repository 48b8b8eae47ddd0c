/** Packets and their byte-stream framing (src/base/Packet.hpp, the frame header of
    src/base/BackedWriter.cpp and src/base/BackedReader.cpp). */
module Wire {

  datatype Option<+T> = None | Some(value: T)

  type Byte = b: int | 0 <= b < 256

  type Bytes = seq<Byte>

  const TWO_TO_THE_31: int := 0x8000_0000
  const TWO_TO_THE_32: int := 0x1_0000_0000

  /** The value a C++ int takes when it is assigned a wider integer. */
  function ToInt32(n: int): int {
    (n + TWO_TO_THE_31) % TWO_TO_THE_32 - TWO_TO_THE_31
  }

  datatype Packet = Packet(encrypted: bool, header: Byte, payload: Bytes) {
    function Length(): nat {
      2 + |payload|
    }

    function Serialize(): Bytes {
      [if encrypted then 1 else 0, header] + payload
    }
  }

  /** The deserializing constructor; `substr(2)` throws on a string shorter than two. */
  function Parse(s: Bytes): Option<Packet> {
    if |s| < 2 then None else Some(Packet(s[0] != 0, s[1], s[2..]))
  }

  lemma ParseSerialize(p: Packet)
    ensures |p.Serialize()| == p.Length()
    ensures Parse(p.Serialize()) == Some(p)
  {
    assert p.Serialize()[2..] == p.payload;
  }

  /** The low `width` bytes of a number, most significant first. */
  function BigEndian(n: nat, width: nat): (bytes: Bytes)
    ensures |bytes| == width
  {
    if width == 0 then [] else BigEndian(n / 256, width - 1) + [n % 256]
  }

  function BigEndianValue(bytes: Bytes): nat {
    if bytes == [] then 0 else BigEndianValue(bytes[..|bytes| - 1]) * 256 + bytes[|bytes| - 1]
  }

  function Power256(n: nat): nat {
    if n == 0 then 1 else 256 * Power256(n - 1)
  }

  lemma {:induction false} Power256Positive(n: nat)
    ensures Power256(n) > 0
  {
    if n > 0 {
      Power256Positive(n - 1);
    }
  }

  /** Division by a product, one factor at a time. */
  lemma ModByProduct(n: nat, m: nat)
    requires m > 0
    ensures n % (256 * m) == n / 256 % m * 256 + n % 256
  {
    var q, r := n / 256 / m, n / 256 % m;
    assert n == 256 * (q * m + r) + n % 256;
    assert 256 * (q * m) == q * (256 * m);
    QuotientIs(n, 256 * m, q, 256 * r + n % 256);
  }

  lemma QuotientIs(n: int, m: int, q: int, r: int)
    requires 0 <= r < m && n == q * m + r
    ensures n % m == r
  {
    var q' := n / m;
    assert q' < q ==> q' * m <= (q - 1) * m;
    assert q' > q ==> q' * m >= (q + 1) * m;
  }

  lemma {:induction false} BigEndianRoundTrip(n: nat, width: nat)
    ensures Power256(width) > 0
    ensures BigEndianValue(BigEndian(n, width)) == n % Power256(width)
  {
    Power256Positive(width);
    if width > 0 {
      var bytes := BigEndian(n, width);
      assert bytes[..width - 1] == BigEndian(n / 256, width - 1);
      BigEndianRoundTrip(n / 256, width - 1);
      ModByProduct(n, Power256(width - 1));
    }
  }

  /** `htonl` followed by `memcpy`. */
  function EncodeLength(n: nat): (bytes: Bytes)
    ensures |bytes| == 4
  {
    BigEndian(n, 4)
  }

  /** `ntohl` into a signed 32-bit int. */
  function DecodeLength(bytes: Bytes): int
    requires |bytes| == 4
  {
    ToInt32(BigEndianValue(bytes))
  }

  /** The length header survives the trip exactly for lengths a signed int can hold. */
  lemma LengthRoundTrip(n: nat)
    ensures DecodeLength(EncodeLength(n)) == ToInt32(n)
    ensures DecodeLength(EncodeLength(n)) == n <==> n < TWO_TO_THE_31
  {
    BigEndianRoundTrip(n, 4);
    assert Power256(4) == TWO_TO_THE_32;
    var q := n / TWO_TO_THE_32;
    ModShift(n % TWO_TO_THE_32 + TWO_TO_THE_31, q);
  }

  lemma ModShift(a: int, k: int)
    ensures (a + k * TWO_TO_THE_32) % TWO_TO_THE_32 == a % TWO_TO_THE_32
  {
    QuotientIs(a + k * TWO_TO_THE_32, TWO_TO_THE_32, a / TWO_TO_THE_32 + k, a % TWO_TO_THE_32);
  }

  /** What the writer puts on the socket for one packet. */
  function Frame(p: Packet): (bytes: Bytes)
    ensures |bytes| == 4 + p.Length()
  {
    EncodeLength(p.Length()) + p.Serialize()
  }

  /** On the wire a packet is its length in four bytes, the most significant first, whether it is
      encrypted, its type, and its payload. */
  lemma {:induction false} FrameLayout(p: Packet)
    requires p.Length() < TWO_TO_THE_32
    ensures var n := p.Length();
            Frame(p) == [n / 0x100_0000, n / 0x1_0000 % 256, n / 0x100 % 256, n % 256] +
                        [if p.encrypted then 1 else 0, p.header] + p.payload
  {
    var n := p.Length();
    assert BigEndian(n / 256 / 256 / 256, 1) == [n / 256 / 256 / 256 % 256];
    assert BigEndian(n / 256 / 256, 2) == [n / 256 / 256 / 256 % 256, n / 256 / 256 % 256];
    assert BigEndian(n / 256, 3) == [n / 256 / 256 / 256 % 256, n / 256 / 256 % 256, n / 256 % 256];
    assert BigEndian(n, 4) == [n / 256 / 256 / 256 % 256, n / 256 / 256 % 256, n / 256 % 256, n % 256];
    assert n / 256 / 256 == n / 0x1_0000 && n / 256 / 256 / 256 == n / 0x100_0000 < 256;
  }

  function Frames(ps: seq<Packet>): Bytes {
    if ps == [] then [] else Frame(ps[0]) + Frames(ps[1..])
  }

  lemma {:induction false} FramesConcat(a: seq<Packet>, b: seq<Packet>)
    ensures Frames(a + b) == Frames(a) + Frames(b)
  {
    if a == [] {
      assert a + b == b;
    } else {
      assert (a + b)[1..] == a[1..] + b;
      FramesConcat(a[1..], b);
    }
  }

  lemma FramesSnoc(ps: seq<Packet>, p: Packet)
    ensures Frames(ps + [p]) == Frames(ps) + Frame(p)
  {
    FramesConcat(ps, [p]);
    assert Frames([p]) == Frame(p) + Frames([]);
  }

  /** A partial message cut from a stream of frames, once it holds a length header,
      names the length of the first packet, and up to that length it is a piece of
      that packet's frame alone. */
  lemma PartialIsOneFrame(partial: Bytes, ps: seq<Packet>)
    requires 4 <= |partial| <= |Frames(ps)| && partial == Frames(ps)[..|partial|]
    requires ps != [] ==> ps[0].Length() < TWO_TO_THE_31
    ensures ps != []
    ensures DecodeLength(partial[..4]) == ps[0].Length()
    ensures |partial| <= 4 + ps[0].Length() ==> partial == Frame(ps[0])[..|partial|]
  {
    var f := Frame(ps[0]);
    assert Frames(ps)[..4] == f[..4] == EncodeLength(ps[0].Length());
    assert partial[..4] == Frames(ps)[..4];
    LengthRoundTrip(ps[0].Length());
  }
}
