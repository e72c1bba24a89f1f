/**
 * The wire format of a WebSocket frame (section 5.2 of RFC 6455): the header that
 * webSocketSendFrame writes, the header that AsyncWebSocketClient::_onData reads,
 * and the masking that both apply to the payload.
 */
module WebSocketFrame {
  import opened Basics

  // Bit fields are written as arithmetic: b & 0x0F is b % 16, b & 0x7F is b % 128, b & 0x80 is b >= 128,
  // and b | 0x80 on a seven-bit value is b + 128.

  // A masking key has four bytes.
  type Key = k: bytes | |k| == 4 witness [0, 0, 0, 0]

  const CONTINUATION: byte := 0
  const DISCONNECT: byte := 8
  const PING: byte := 9
  const PONG: byte := 10
  const NO_KEY: Key := [0, 0, 0, 0]

  // Everything a frame header says.  An unmasked header has no key; NO_KEY stands for that.
  datatype Header = Header(final: bool, opcode: byte, masked: bool, len: nat, key: Key)

  // A frame before it is encoded: the payload is the plain text.
  datatype Frame = Frame(final: bool, opcode: byte, masked: bool, key: Key, payload: bytes) {
    function GetHeader(): Header {
      Header(final, opcode, masked, |payload|, if masked then key else NO_KEY)
    }

    // What webSocketSendFrame can express: a four-bit opcode, a 16-bit length, no mask on an empty frame.
    ghost predicate Encodable() {
      opcode < 16 && |payload| < 0x1_0000 && (masked ==> payload != [])
    }
  }

  // ---------- masking ----------

  // The low n bits of a ^ k, bit by bit.
  function XorBits(a: nat, k: nat, n: nat): (r: nat) {
    if n == 0 then 0 else 2 * XorBits(a / 2, k / 2, n - 1) + if a % 2 == k % 2 then 0 else 1
  }

  lemma {:induction false} XorBitsTwice(a: nat, k: nat, n: nat, bound: nat)
    requires bound == Pow2(n) && a < bound
    ensures XorBits(a, k, n) < bound
    ensures XorBits(XorBits(a, k, n), k, n) == a
  {
    if n > 0 {
      XorBitsTwice(a / 2, k / 2, n - 1, Pow2(n - 1));
      var r, q := XorBits(a, k, n), XorBits(a / 2, k / 2, n - 1);
      assert r / 2 == q;
      assert XorBits(r, k, n) == 2 * XorBits(q, k / 2, n - 1) + if r % 2 == k % 2 then 0 else 1;
    }
  }

  function Pow2(n: nat): (p: nat)
    ensures p > 0
  {
    if n == 0 then 1 else 2 * Pow2(n - 1)
  }

  function Xor(a: byte, k: byte): byte {
    assert Pow2(4) == 16 && Pow2(8) == 256;
    XorBitsTwice(a, k, 8, 256);
    XorBits(a, k, 8)
  }

  // Bit i of a ^ k is set if and only if it is set in one of a and k and not in the other.
  lemma XorIsBitwise(a: byte, k: byte, i: nat)
    requires i < 8
    ensures Xor(a, k) / Pow2(i) % 2 == 1 <==> a / Pow2(i) % 2 != k / Pow2(i) % 2
  {
    assert Pow2(4) == 16 && Pow2(8) == 256;
    XorBitsIsBitwise(a, k, 8, i);
  }

  lemma {:induction false} XorBitsIsBitwise(a: nat, k: nat, n: nat, i: nat)
    requires i < n
    ensures XorBits(a, k, n) / Pow2(i) % 2 == 1 <==> a / Pow2(i) % 2 != k / Pow2(i) % 2
  {
    if i > 0 {
      var r := XorBits(a, k, n);
      XorBitsIsBitwise(a / 2, k / 2, n - 1, i - 1);
      assert r / 2 == XorBits(a / 2, k / 2, n - 1);
      hide XorBits;
      HalfFirst(r, Pow2(i - 1));
      HalfFirst(a, Pow2(i - 1));
      HalfFirst(k, Pow2(i - 1));
    }
  }

  lemma HalfFirst(x: nat, p: nat)
    requires p > 0
    ensures x / (2 * p) == x / 2 / p
  {
    var q, r := x / 2 / p, x / 2 % p;
    assert x / 2 == q * p + r;
    var rest := 2 * r + x % 2;
    assert x == q * (2 * p) + rest && 0 <= rest < 2 * p;
    DivisionIs(x, 2 * p, q, rest);
  }

  lemma DivisionIs(x: nat, d: nat, q: nat, r: nat)
    requires d > 0 && x == q * d + r && r < d
    ensures x / d == q
  {
    var e := x / d - q;
    assert x % d == r - e * d;
    AtLeastOnce(e, d);
  }

  lemma AtLeastOnce(e: int, d: int)
    requires d > 0
    ensures e >= 1 ==> e * d >= d
    ensures e <= -1 ==> e * d <= -d
  {
  }

  // XOR with the key, starting at phase start.
  function Mask(key: Key, start: nat, bs: bytes): (r: bytes)
    ensures |r| == |bs|
    ensures forall i :: 0 <= i < |bs| ==> r[i] == Xor(bs[i], key[(start + i) % 4])
  {
    seq(|bs|, i requires 0 <= i < |bs| => Xor(bs[i], key[(start + i) % 4]))
  }

  // Applying the mask that a header announces: nothing when the frame is not masked.
  function Unmask(h: Header, start: nat, bs: bytes): (r: bytes)
    ensures |r| == |bs|
  {
    if h.masked then Mask(h.key, start, bs) else bs
  }

  lemma MaskTwice(key: Key, start: nat, bs: bytes)
    ensures Mask(key, start, Mask(key, start, bs)) == bs
  {
    forall i | 0 <= i < |bs|
      ensures Mask(key, start, Mask(key, start, bs))[i] == bs[i]
    {
      XorTwice(bs[i], key[(start + i) % 4]);
    }
  }

  lemma XorTwice(a: byte, k: byte)
    ensures Xor(Xor(a, k), k) == a
  {
    assert Pow2(4) == 16 && Pow2(8) == 256;
    XorBitsTwice(a, k, 8, 256);
  }

  lemma {:induction false} XorBitsFixed(a: nat, k: nat, n: nat, bound: nat)
    requires bound == Pow2(n) && a < bound && k < bound
    ensures XorBits(a, k, n) == a <==> k == 0
  {
    if n > 0 {
      XorBitsFixed(a / 2, k / 2, n - 1, Pow2(n - 1));
    }
  }

  // Only the zero byte leaves what it masks unchanged.
  lemma XorFixed(a: byte, k: byte)
    ensures Xor(a, k) == a <==> k == 0
  {
    assert Pow2(4) == 16 && Pow2(8) == 256;
    XorBitsFixed(a, k, 8, 256);
  }

  // The mask phase carried by the index makes unmasking in pieces the same as unmasking at once.
  lemma UnmaskSplit(h: Header, start: nat, a: bytes, b: bytes)
    ensures Unmask(h, start, a + b) == Unmask(h, start, a) + Unmask(h, start + |a|, b)
  {
    if h.masked {
      var whole, parts := Mask(h.key, start, a + b), Mask(h.key, start, a) + Mask(h.key, start + |a|, b);
      forall i | 0 <= i < |a + b|
        ensures whole[i] == parts[i]
      {
        if i >= |a| {
          assert start + |a| + (i - |a|) == start + i;
        }
      }
    }
  }

  // ---------- reading a header ----------

  // The sizes of the extended length and of the key are fixed by the second byte.
  function ExtendedSize(second: byte): nat {
    if second % 128 == 126 then 2 else if second % 128 == 127 then 8 else 0
  }

  function KeySize(second: byte): nat {
    if second >= 128 then 4 else 0
  }

  function HeaderSize(second: byte): (n: nat)
    ensures 2 <= n <= 14
  {
    2 + ExtendedSize(second) + KeySize(second)
  }

  predicate HeaderComplete(bs: bytes) {
    |bs| >= 2 && |bs| >= HeaderSize(bs[1])
  }

  function BigEndian(bs: bytes): nat {
    if bs == [] then 0 else BigEndian(bs[..|bs| - 1]) * 256 + bs[|bs| - 1]
  }

  function Fields(first: byte, second: byte, ext: bytes, key: bytes): Header
    requires |key| == KeySize(second)
  {
    Header(
      first >= 128,
      first % 16,
      |key| == 4,
      if ext == [] then second % 128 else BigEndian(ext),
      if |key| == 4 then key else NO_KEY)
  }

  function ReadHeader(bs: bytes): Header
    requires HeaderComplete(bs)
  {
    var e := 2 + ExtendedSize(bs[1]);
    Fields(bs[0], bs[1], bs[2..e], bs[e..HeaderSize(bs[1])])
  }

  // ---------- writing a frame ----------

  function FirstByte(final: bool, opcode: byte): byte {
    opcode % 16 + if final then 128 else 0
  }

  function SecondByte(masked: bool, n: nat): byte {
    (if n < 126 then n else 126) + if masked then 128 else 0
  }

  // (uint8_t)((n >> 8) & 0xFF) and (uint8_t)(n & 0xFF)
  function LengthBytes(n: nat): (r: bytes)
    ensures |r| == 2
  {
    [n / 256 % 256, n % 256]
  }

  function EncodeHeader(h: Header): (r: bytes)
    ensures |r| == 2 + (if h.len < 126 then 0 else 2) + (if h.masked then 4 else 0)
  {
    [FirstByte(h.final, h.opcode), SecondByte(h.masked, h.len)] +
    (if h.len < 126 then [] else LengthBytes(h.len)) +
    (if h.masked then h.key else [])
  }

  function EncodeFrame(f: Frame): (r: bytes)
    ensures |r| >= 2
  {
    EncodeHeader(f.GetHeader()) + Unmask(f.GetHeader(), 0, f.payload)
  }

  function EncodeAll(fs: seq<Frame>): bytes {
    if fs == [] then [] else EncodeFrame(fs[0]) + EncodeAll(fs[1..])
  }

  function Payloads(fs: seq<Frame>): bytes {
    if fs == [] then [] else fs[0].payload + Payloads(fs[1..])
  }

  lemma {:induction false} EncodeAllAppend(fs: seq<Frame>, f: Frame)
    ensures EncodeAll(fs + [f]) == EncodeAll(fs) + EncodeFrame(f)
    ensures Payloads(fs + [f]) == Payloads(fs) + f.payload
  {
    if fs == [] {
      assert fs + [f] == [f];
    } else {
      assert (fs + [f])[1..] == fs[1..] + [f];
      EncodeAllAppend(fs[1..], f);
      Associative(EncodeFrame(fs[0]), EncodeAll(fs[1..]), EncodeFrame(f));
      Associative(fs[0].payload, Payloads(fs[1..]), f.payload);
    }
  }

  // ---------- header round trip ----------

  lemma LengthBytesValue(n: nat)
    ensures BigEndian(LengthBytes(n)) == n % 0x1_0000
  {
    var lb := LengthBytes(n);
    assert lb[..1] == [lb[0]];
    assert lb[..1][..0] == [];
    assert BigEndian(lb[..1]) == lb[0];
  }

  // The fields of a header that EncodeHeader wrote.
  lemma EncodedFields(h: Header)
    requires h.opcode < 16 && h.len < 0x1_0000
    requires !h.masked ==> h.key == NO_KEY
    ensures var ext := if h.len < 126 then [] else LengthBytes(h.len);
            var key := if h.masked then h.key else [];
            KeySize(SecondByte(h.masked, h.len)) == |key| &&
            Fields(FirstByte(h.final, h.opcode), SecondByte(h.masked, h.len), ext, key) == h
  {
    if h.len >= 126 {
      LengthBytesValue(h.len);
      assert h.len % 0x1_0000 == h.len;
    }
  }

  lemma ReadParts(first: byte, second: byte, ext: bytes, key: bytes, rest: bytes)
    requires |ext| == ExtendedSize(second) && |key| == KeySize(second)
    ensures var e := [first, second] + ext + key + rest;
            && HeaderComplete(e)
            && HeaderSize(e[1]) == 2 + |ext| + |key|
            && ReadHeader(e) == Fields(first, second, ext, key)
  {
    var e := [first, second] + ext + key + rest;
    assert e[0] == first && e[1] == second;
    assert e[2..2 + |ext|] == ext;
    assert e[2 + |ext|..2 + |ext| + |key|] == key;
  }

  // What _onData reads is what webSocketSendFrame wrote, whatever bytes follow the header.
  lemma HeaderRoundTrip(h: Header, rest: bytes)
    requires h.opcode < 16 && h.len < 0x1_0000
    requires !h.masked ==> h.key == NO_KEY
    ensures HeaderComplete(EncodeHeader(h) + rest)
    ensures HeaderSize((EncodeHeader(h) + rest)[1]) == |EncodeHeader(h)|
    ensures ReadHeader(EncodeHeader(h) + rest) == h
  {
    var ext := if h.len < 126 then [] else LengthBytes(h.len);
    var key: bytes := if h.masked then h.key else [];
    EncodedFields(h);
    ReadParts(FirstByte(h.final, h.opcode), SecondByte(h.masked, h.len), ext, key, rest);
  }

  // The form that the sender never writes: any 64-bit length, masked or not.
  lemma LongHeaderReads(final: bool, opcode: byte, masked: bool, length: bytes, key: Key, rest: bytes)
    requires opcode < 16 && |length| == 8
    ensures var bs := [opcode + if final then 128 else 0, 127 + if masked then 128 else 0] + length
                      + (if masked then key else []) + rest;
            && HeaderComplete(bs) && HeaderSize(bs[1]) == 10 + (if masked then 4 else 0)
            && ReadHeader(bs) == Header(final, opcode, masked, BigEndian(length), if masked then key else NO_KEY)
  {
    hide HeaderComplete, ReadHeader, HeaderSize, Fields, BigEndian;
    var second, k := 127 + (if masked then 128 else 0), if masked then key else [];
    LongForm(final, opcode, masked, length, key);
    ReadParts(opcode + if final then 128 else 0, second, length, k, rest);
    assert [opcode + if final then 128 else 0, 127 + if masked then 128 else 0] + length + k + rest
        == [opcode + if final then 128 else 0, second] + length + k + rest;
  }

  lemma LongForm(final: bool, opcode: byte, masked: bool, length: bytes, key: Key)
    requires opcode < 16 && |length| == 8
    ensures var second, k := 127 + (if masked then 128 else 0), if masked then key else [];
            && ExtendedSize(second) == 8 && KeySize(second) == |k|
            && Fields(opcode + if final then 128 else 0, second, length, k)
                 == Header(final, opcode, masked, BigEndian(length), if masked then key else NO_KEY)
  {
    hide BigEndian;
  }

  // ---------- the examples of section 5.7 of RFC 6455 ----------

  const HELLO: bytes := [0x48, 0x65, 0x6c, 0x6c, 0x6f]

  lemma ExampleText()
    ensures EncodeFrame(Frame(true, 1, false, NO_KEY, HELLO)) == [0x81, 0x05, 0x48, 0x65, 0x6c, 0x6c, 0x6f]
  {
  }

  lemma ExampleMaskedText()
    ensures EncodeFrame(Frame(true, 1, true, [0x37, 0xfa, 0x21, 0x3d], HELLO)) ==
              [0x81, 0x85, 0x37, 0xfa, 0x21, 0x3d] + Mask([0x37, 0xfa, 0x21, 0x3d], 0, HELLO)
  {
    hide Mask;
  }

  lemma ExampleFragments()
    ensures EncodeFrame(Frame(false, 1, false, NO_KEY, [0x48, 0x65, 0x6c])) == [0x01, 0x03, 0x48, 0x65, 0x6c]
    ensures EncodeFrame(Frame(true, 0, false, NO_KEY, [0x6c, 0x6f])) == [0x80, 0x02, 0x6c, 0x6f]
  {
  }

  lemma ExamplePing()
    ensures EncodeFrame(Frame(true, 9, false, NO_KEY, HELLO)) == [0x89, 0x05, 0x48, 0x65, 0x6c, 0x6c, 0x6f]
  {
  }

  // 256 bytes and 64 KiB of binary data; only the reader knows the second form.
  lemma ExampleLengths(payload: bytes)
    ensures |payload| == 256 ==>
              EncodeFrame(Frame(true, 2, false, NO_KEY, payload)) == [0x82, 0x7E, 0x01, 0x00] + payload
    ensures var bs := [0x82, 0x7F, 0x00, 0x00, 0x00, 0x00, 0x00, 0x01, 0x00, 0x00] + payload;
            && HeaderComplete(bs) && HeaderSize(bs[1]) == 10
            && ReadHeader(bs) == Header(true, 2, false, 65536, NO_KEY)
  {
    var ext: bytes := [0, 0, 0, 0, 0, 1, 0, 0];
    var bs := [0x82, 0x7F] + ext + payload;
    assert bs == [0x82, 0x7F, 0x00, 0x00, 0x00, 0x00, 0x00, 0x01, 0x00, 0x00] + payload;
    ReadParts(0x82, 0x7F, ext, [], payload);
    assert bs == [0x82, 0x7F] + ext + [] + payload;
    assert BigEndian(ext) == 65536 by {
      assert ext[..7] == [0, 0, 0, 0, 0, 1, 0] && ext[..7][..6] == [0, 0, 0, 0, 0, 1];
      assert ext[..7][..6][..5] == [0, 0, 0, 0, 0];
      ZerosAreZero([0, 0, 0, 0, 0]);
    }
  }

  lemma {:induction false} ZerosAreZero(bs: bytes)
    requires forall i :: 0 <= i < |bs| ==> bs[i] == 0
    ensures BigEndian(bs) == 0
  {
    if bs != [] {
      ZerosAreZero(bs[..|bs| - 1]);
    }
  }
}
