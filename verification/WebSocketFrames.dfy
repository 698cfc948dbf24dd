/** WebSocket frames (section 5.2 of RFC 6455) as bytes: the server's writer, the
    client's masking writer, and the one reader of both (app/zmux/ws_server.py,
    scripts/e2e_pty_smoke.py). */
module WebSocketFrames {
  import opened Octets
  import opened Sequences
  import opened Wrappers

  datatype Frame = Frame(opcode: nat, payload: Bytes)

  // ---------------------------------------------------------------- masking

  function Power2(bits: nat): nat {
    if bits == 0 then 1 else 2 * Power2(bits - 1)
  }

  /** Exclusive or, bit by bit: the low bit of the result tells whether the two
      low bits differ. */
  function XorBits(a: nat, b: nat, bits: nat): (r: nat)
    ensures r < Power2(bits)
  {
    if bits == 0 then 0 else (a + b) % 2 + 2 * XorBits(a / 2, b / 2, bits - 1)
  }

  function Xor(a: byte, b: byte): byte {
    assert Power2(8) == 256 by {
      assert Power2(4) == 16;
    }
    XorBits(a, b, 8)
  }

  lemma {:induction false} XorTwice(a: nat, k: nat, bits: nat)
    requires a < Power2(bits)
    ensures XorBits(XorBits(a, k, bits), k, bits) == a
  {
    if bits > 0 {
      var low, high := (a + k) % 2, XorBits(a / 2, k / 2, bits - 1);
      XorTwice(a / 2, k / 2, bits - 1);
      LowAndHigh(low, high, k);
      SumTwice(a, k);
      assert XorBits(low + 2 * high, k, bits) == (low + k) % 2 + 2 * XorBits(high, k / 2, bits - 1);
    }
  }

  lemma LowAndHigh(low: nat, high: nat, k: nat)
    requires low < 2
    ensures (low + 2 * high) / 2 == high
    ensures (low + 2 * high + k) % 2 == (low + k) % 2
  {
  }

  lemma SumTwice(a: nat, k: nat)
    ensures ((a + k) % 2 + k) % 2 == a % 2
  {
  }

  type Key = k: Bytes | |k| == 4 witness [0, 0, 0, 0]

  function Masked(payload: Bytes, key: Key): (r: Bytes)
    ensures |r| == |payload|
  {
    seq(|payload|, i requires 0 <= i < |payload| => Xor(payload[i], key[i % 4]))
  }

  /** Masking with the same key again restores the payload (section 5.3). */
  lemma MaskTwice(payload: Bytes, key: Key)
    ensures Masked(Masked(payload, key), key) == payload
  {
    forall i | 0 <= i < |payload|
      ensures Masked(Masked(payload, key), key)[i] == payload[i]
    {
      assert Power2(4) == 16;
      XorTwice(payload[i], key[i % 4], 8);
    }
  }

  /** Whether bit `j` of a number is set. */
  predicate Bit(n: nat, j: nat) {
    if j == 0 then n % 2 == 1 else Bit(n / 2, j - 1)
  }

  lemma {:induction false} XorBit(a: nat, k: nat, bits: nat, j: nat)
    requires j < bits
    ensures Bit(XorBits(a, k, bits), j) <==> Bit(a, j) != Bit(k, j)
  {
    XorStep(a, k, bits);
    LowAndHigh((a + k) % 2, XorBits(a / 2, k / 2, bits - 1), 0);
    if j == 0 {
      SumIsOdd(a, k);
    } else {
      XorBit(a / 2, k / 2, bits - 1, j - 1);
    }
  }

  lemma SumIsOdd(a: nat, k: nat)
    ensures (a + k) % 2 == 1 <==> (a % 2 == 1) != (k % 2 == 1)
  {
  }

  /** Byte by byte and bit by bit: a bit of the masked payload is set exactly when
      that of the payload and that of the key byte in turn differ (section 5.3). */
  lemma MaskedBitByBit(payload: Bytes, key: Key, i: nat, j: nat)
    requires i < |payload| && j < 8
    ensures Bit(Masked(payload, key)[i], j) <==> Bit(payload[i], j) != Bit(key[i % 4], j)
  {
    XorBit(payload[i], key[i % 4], 8, j);
  }

  // ---------------------------------------------------------------- writers

  /** The length field of a header; `flag` is the mask bit, 0 or 128. */
  function LengthField(n: nat, flag: byte): Bytes
    requires n < Power256(8) && (flag == 0 || flag == 128)
  {
    if n < 126 then [flag + n]
    else if n <= 65535 then [flag + 126] + BigEndian(n, 2)
    else [flag + 127] + BigEndian(n, 8)
  }

  /** The final-fragment bit added to an opcode: `0x80 | opcode`. */
  function WithFin(opcode: nat): nat {
    if opcode / 128 % 2 == 1 then opcode else opcode + 128
  }

  /** The server's frame, unmasked. None where the source raises: an opcode that
      does not fit the byte, a length that does not fit eight. */
  function ServerFrame(f: Frame): Option<Bytes> {
    if WithFin(f.opcode) >= 256 || |f.payload| >= Power256(8) then None
    else Some([WithFin(f.opcode)] + LengthField(|f.payload|, 0) + f.payload)
  }

  /** The client's text frame, masked with a key of its choice. */
  function ClientText(text: Bytes, key: Key): Option<Bytes> {
    if |text| >= Power256(8) then None
    else Some([129] + LengthField(|text|, 128) + key + Masked(text, key))
  }

  // ----------------------------------------------------------------- reader

  /** `length` is the payload length, `size` how many bytes the header takes. */
  datatype Header = Header(opcode: nat, masked: bool, length: nat, size: nat)

  /** None while the header is not complete. */
  function ReadHeader(s: Bytes): Option<Header> {
    if |s| < 2 then None
    else
      var opcode, masked, short := s[0] % 16, s[1] >= 128, s[1] % 128;
      var extra := if short == 126 then 2 else if short == 127 then 8 else 0;
      if |s| < 2 + extra then None
      else Some(Header(opcode, masked, if extra == 0 then short else FromBigEndian(s[2..2 + extra]), 2 + extra))
  }

  /** What follows a header: the key of a masked frame, the payload, the rest. */
  function ReadBody(s: Bytes, h: Header): Option<(Frame, Bytes)> {
    var start := if h.masked then h.size + 4 else h.size;
    if |s| < start + h.length then None
    else
      var payload := s[start..start + h.length];
      var clear := if h.masked then Masked(payload, s[h.size..start]) else payload;
      Some((Frame(h.opcode, clear), s[start + h.length..]))
  }

  /** One frame off the front of `s`, and what follows it; None when the
      connection ends before the frame does. */
  function ReadFrame(s: Bytes): Option<(Frame, Bytes)> {
    match ReadHeader(s)
    case None => None
    case Some(h) => ReadBody(s, h)
  }

  /** Every frame there is, in order, until the connection ends. */
  function ReadFrames(s: Bytes): seq<Frame>
    decreases |s|
  {
    match ReadFrame(s)
    case None => []
    case Some((frame, rest)) => [frame] + ReadFrames(rest)
  }

  // ------------------------------------------------------------ round trips

  lemma LengthFits(n: nat)
    ensures n <= 65535 ==> n < Power256(2)
    ensures Power256(2) == 65536 && Power256(2) <= Power256(8)
  {
    assert Power256(4) == 0x1_0000_0000;
  }

  lemma HeaderReads(first: byte, n: nat, flag: byte, rest: Bytes)
    requires n < Power256(8) && (flag == 0 || flag == 128)
    ensures var field := LengthField(n, flag);
            ReadHeader([first] + field + rest) == Some(Header(first % 16, flag == 128, n, 1 + |field|))
  {
    var field := LengthField(n, flag);
    var s := [first] + field + rest;
    LengthFits(n);
    if n >= 126 {
      var width := if n <= 65535 then 2 else 8;
      BigEndianRoundTrip(n, width);
      assert s[2..2 + width] == BigEndian(n, width);
    }
    assert s[0] == first && s[1] == field[0];
  }

  lemma HeaderCutShort(first: byte, n: nat, flag: byte, k: nat)
    requires n < Power256(8) && (flag == 0 || flag == 128) && k <= |LengthField(n, flag)|
    ensures ReadHeader(([first] + LengthField(n, flag))[..k]).None?
  {
    var cut := ([first] + LengthField(n, flag))[..k];
    assert k >= 2 ==> cut[1] == LengthField(n, flag)[0];
  }

  /** A header says what was put in it, and cut short it says nothing. */
  lemma HeaderRoundTrip(first: byte, n: nat, flag: byte, rest: Bytes)
    requires n < Power256(8) && (flag == 0 || flag == 128)
    ensures var field := LengthField(n, flag);
            && ReadHeader([first] + field + rest) == Some(Header(first % 16, flag == 128, n, 1 + |field|))
            && forall k: nat | k <= |field| :: ReadHeader(([first] + field)[..k]).None?
  {
    HeaderReads(first, n, flag, rest);
    forall k: nat | k <= |LengthField(n, flag)| ensures ReadHeader(([first] + LengthField(n, flag))[..k]).None? {
      HeaderCutShort(first, n, flag, k);
    }
  }

  lemma PartsStand(head: Bytes, key: Bytes, payload: Bytes, rest: Bytes)
    ensures var s, start := head + (key + payload + rest), |head| + |key|;
            && |s| == start + |payload| + |rest| && s[|head|..start] == key
            && s[start..start + |payload|] == payload && s[start + |payload|..] == rest
  {
  }

  /** A frame by its parts: the header, a key if it is masked, the payload. */
  lemma FrameReads(head: Bytes, h: Header, key: Bytes, payload: Bytes, rest: Bytes)
    requires ReadHeader(head + (key + payload + rest)) == Some(h) && h.size == |head| && h.length == |payload|
    requires |key| == if h.masked then 4 else 0
    ensures ReadFrame(head + (key + payload + rest)) ==
            Some((Frame(h.opcode, if h.masked then Masked(payload, key) else payload), rest))
  {
    PartsStand(head, key, payload, rest);
    BodyOf(head + (key + payload + rest), h, key, payload, rest);
  }

  lemma BodyOf(s: Bytes, h: Header, key: Bytes, payload: Bytes, rest: Bytes)
    requires h.length == |payload| && |key| == if h.masked then 4 else 0
    requires |s| == h.size + |key| + |payload| + |rest| && s[h.size..h.size + |key|] == key
    requires s[h.size + |key|..h.size + |key| + |payload|] == payload && s[h.size + |key| + |payload|..] == rest
    ensures ReadBody(s, h) == Some((Frame(h.opcode, if h.masked then Masked(payload, key) else payload), rest))
  {
  }

  /** Cut short, in the header or after it, a frame is none. */
  lemma FrameCutShort(head: Bytes, h: Header, body: Bytes, k: nat)
    requires k < |head| + |body| && h.size == |head| && (if h.masked then 4 else 0) + h.length == |body|
    requires k < |head| ==> ReadHeader(head[..k]).None?
    requires k >= |head| ==> ReadHeader(head + body[..k - |head|]) == Some(h)
    ensures ReadFrame((head + body)[..k]) == None
  {
    if k < |head| {
      assert (head + body)[..k] == head[..k];
    } else {
      assert (head + body)[..k] == head + body[..k - |head|];
    }
  }

  lemma FourBits(opcode: nat)
    requires WithFin(opcode) < 256
    ensures WithFin(opcode) % 16 == opcode <==> opcode < 16
  {
  }

  lemma ServerCutShort(f: Frame, k: nat)
    requires ServerFrame(f).Some? && k < |ServerFrame(f).value|
    ensures ReadFrame(ServerFrame(f).value[..k]) == None
  {
    var n, first: byte := |f.payload|, WithFin(f.opcode);
    var head := [first] + LengthField(n, 0);
    if k < |head| {
      HeaderCutShort(first, n, 0, k);
    } else {
      HeaderReads(first, n, 0, f.payload[..k - |head|]);
    }
    FrameCutShort(head, Header(first % 16, false, n, |head|), f.payload, k);
  }

  lemma ServerReads(f: Frame, rest: Bytes)
    requires ServerFrame(f).Some?
    ensures ReadFrame(ServerFrame(f).value + rest) == Some((Frame(WithFin(f.opcode) % 16, f.payload), rest))
  {
    var n, first: byte := |f.payload|, WithFin(f.opcode);
    var head := [first] + LengthField(n, 0);
    HeaderReads(first, n, 0, [] + f.payload + rest);
    FrameReads(head, Header(first % 16, false, n, |head|), [], f.payload, rest);
    NoKey(head, f.payload, rest);
  }

  lemma NoKey(head: Bytes, payload: Bytes, rest: Bytes)
    ensures head + ([] + payload + rest) == (head + payload) + rest
  {
  }

  /** What the server writes is read back as it was, and nothing less than all of
      it is read as a frame. The opcode survives exactly when it has four bits. */
  lemma ServerRoundTrip(f: Frame, rest: Bytes)
    requires ServerFrame(f).Some?
    ensures ReadFrame(ServerFrame(f).value + rest) == Some((Frame(WithFin(f.opcode) % 16, f.payload), rest))
    ensures WithFin(f.opcode) % 16 == f.opcode <==> f.opcode < 16
    ensures forall k | 0 <= k < |ServerFrame(f).value| :: ReadFrame(ServerFrame(f).value[..k]) == None
  {
    ServerReads(f, rest);
    FourBits(f.opcode);
    forall k | 0 <= k < |ServerFrame(f).value| ensures ReadFrame(ServerFrame(f).value[..k]) == None {
      ServerCutShort(f, k);
    }
  }

  lemma ClientCutShort(text: Bytes, key: Key, k: nat)
    requires ClientText(text, key).Some? && k < |ClientText(text, key).value|
    ensures ReadFrame(ClientText(text, key).value[..k]) == None
  {
    var n, head, body := |text|, [129] + LengthField(|text|, 128), key + Masked(text, key);
    if k < |head| {
      HeaderCutShort(129, n, 128, k);
    } else {
      HeaderReads(129, n, 128, body[..k - |head|]);
    }
    FrameCutShort(head, Header(1, true, n, |head|), body, k);
    assert ClientText(text, key).value == head + body;
  }

  lemma ClientReads(text: Bytes, key: Key, rest: Bytes)
    requires ClientText(text, key).Some?
    ensures ReadFrame(ClientText(text, key).value + rest) == Some((Frame(1, text), rest))
  {
    var n, masked, head := |text|, Masked(text, key), [129] + LengthField(|text|, 128);
    HeaderReads(129, n, 128, key + masked + rest);
    FrameReads(head, Header(1, true, n, |head|), key, masked, rest);
    MaskTwice(text, key);
    WithKey(head, key, masked, rest);
  }

  lemma WithKey(head: Bytes, key: Bytes, payload: Bytes, rest: Bytes)
    ensures head + (key + payload + rest) == (head + key + payload) + rest
  {
  }

  /** What the client masks, with whatever key, is read back unmasked as text. */
  lemma ClientRoundTrip(text: Bytes, key: Key, rest: Bytes)
    requires ClientText(text, key).Some?
    ensures ReadFrame(ClientText(text, key).value + rest) == Some((Frame(1, text), rest))
    ensures forall k | 0 <= k < |ClientText(text, key).value| :: ReadFrame(ClientText(text, key).value[..k]) == None
  {
    ClientReads(text, key, rest);
    forall k | 0 <= k < |ClientText(text, key).value| ensures ReadFrame(ClientText(text, key).value[..k]) == None {
      ClientCutShort(text, key, k);
    }
  }

  /** A frame as one side or the other sends it. */
  datatype Sent = FromServer(frame: Frame) | FromClient(text: Bytes, key: Key)

  function Encoded(x: Sent): Option<Bytes> {
    match x
    case FromServer(frame) => ServerFrame(frame)
    case FromClient(text, key) => ClientText(text, key)
  }

  function Meaning(x: Sent): Frame {
    match x
    case FromServer(frame) => frame
    case FromClient(text, _) => Frame(1, text)
  }

  /** Opcode of four bits, payload within the eight-byte length. */
  predicate Sendable(x: Sent) {
    Encoded(x).Some? && Meaning(x).opcode < 16
  }

  function EncodedAll(xs: seq<Sent>): Bytes
    requires forall i | 0 <= i < |xs| :: Sendable(xs[i])
  {
    if xs == [] then []
    else
      assert Sendable(xs[0]);
      Encoded(xs[0]).value + EncodedAll(xs[1..])
  }

  function Meanings(xs: seq<Sent>): (r: seq<Frame>)
    ensures |r| == |xs|
  {
    seq(|xs|, i requires 0 <= i < |xs| => Meaning(xs[i]))
  }

  lemma SentRoundTrip(x: Sent, rest: Bytes)
    requires Sendable(x)
    ensures ReadFrame(Encoded(x).value + rest) == Some((Meaning(x), rest))
  {
    match x {
      case FromServer(frame) => ServerRoundTrip(frame, rest);
      case FromClient(text, key) => ClientRoundTrip(text, key, rest);
    }
  }

  lemma ReadFramesStep(s: Bytes, frame: Frame, rest: Bytes)
    requires ReadFrame(s) == Some((frame, rest))
    ensures ReadFrames(s) == [frame] + ReadFrames(rest)
  {
  }

  lemma MeaningsStep(xs: seq<Sent>)
    requires xs != []
    ensures Meanings(xs) == [Meaning(xs[0])] + Meanings(xs[1..])
  {
  }

  /** Any list of frames, sent by either side and possibly followed by a frame
      cut short, is read back frame by frame. */
  lemma {:induction false} FramesRoundTrip(xs: seq<Sent>, partial: Bytes)
    requires forall i | 0 <= i < |xs| :: Sendable(xs[i])
    requires ReadFrame(partial) == None
    ensures ReadFrames(EncodedAll(xs) + partial) == Meanings(xs)
  {
    if xs == [] {
      assert [] + partial == partial;
    } else {
      var first, rest := Encoded(xs[0]), EncodedAll(xs[1..]) + partial;
      assert Sendable(xs[0]);
      SentRoundTrip(xs[0], rest);
      ReadFramesStep(first.value + rest, Meaning(xs[0]), rest);
      ThreeParts(first.value, EncodedAll(xs[1..]), partial);
      FramesRoundTrip(xs[1..], partial);
      MeaningsStep(xs);
    }
  }

  lemma ShortestHeader(s: Bytes)
    requires ReadHeader(s).Some?
    ensures var h := ReadHeader(s).value;
            && |s| >= 2 && h.length < Power256(8) && h.opcode == s[0] % 16 && h.masked == (s[1] >= 128)
            && 1 + |LengthField(h.length, 0)| <= h.size && 1 + |LengthField(h.length, 128)| <= h.size
  {
    var h := ReadHeader(s).value;
    LengthFits(h.length);
    if h.size > 2 {
      FromBigEndianBounded(s[2..h.size]);
    }
  }

  /** The shortest length form is used: no bytes that read as the same frame,
      masked or not as they are, are fewer than the writer's. */
  lemma ShortestForm(s: Bytes, key: Key)
    requires ReadFrame(s).Some?
    ensures var (frame, rest) := ReadFrame(s).value;
            var written := if s[1] >= 128 then ClientText(frame.payload, key) else ServerFrame(frame);
            written.Some? && |written.value| <= |s| - |rest|
  {
    ShortestHeader(s);
    var h := ReadHeader(s).value;
    var (frame, rest) := ReadFrame(s).value;
    assert |frame.payload| == h.length;
  }

  // ------------------------------------------------------------- examples

  /** "Hello" */
  const HELLO: Bytes := [0x48, 0x65, 0x6C, 0x6C, 0x6F]
  const HELLO_KEY: Key := [0x37, 0xFA, 0x21, 0x3D]
  const MASKED_HELLO: Bytes := [0x81, 0x85, 0x37, 0xFA, 0x21, 0x3D, 0x7F, 0x9F, 0x4D, 0x51, 0x58]

  lemma XorStep(a: nat, k: nat, bits: nat)
    requires bits > 0
    ensures XorBits(a, k, bits) == (a + k) % 2 + 2 * XorBits(a / 2, k / 2, bits - 1)
  {
  }

  // The exclusive or of each byte, from the high bits down.

  lemma MaskedAt(payload: Bytes, key: Key, i: nat, p: byte, k: byte, r: byte)
    requires i < |payload| && payload[i] == p && key[i % 4] == k && XorBits(p, k, 8) == r
    ensures Masked(payload, key)[i] == r
  {
  }

  lemma FirstOfHello()
    ensures Masked(HELLO, HELLO_KEY)[0] == 0x7F
  {
    assert XorBits(0, 0, 1) == 0;
    assert XorBits(1, 0, 2) == 1;
    assert XorBits(2, 1, 3) == 3;
    assert XorBits(4, 3, 4) == 7;
    assert XorBits(9, 6, 5) == 15;
    assert XorBits(18, 13, 6) == 31;
    assert XorBits(36, 27, 7) == 63;
    MaskedAt(HELLO, HELLO_KEY, 0, 0x48, 0x37, 0x7F);
  }

  lemma SecondOfHello()
    ensures Masked(HELLO, HELLO_KEY)[1] == 0x9F
  {
    assert XorBits(0, 1, 1) == 1;
    assert XorBits(1, 3, 2) == 2;
    assert XorBits(3, 7, 3) == 4;
    assert XorBits(6, 15, 4) == 9;
    assert XorBits(12, 31, 5) == 19;
    assert XorBits(25, 62, 6) == 39;
    assert XorBits(50, 125, 7) == 79;
    MaskedAt(HELLO, HELLO_KEY, 1, 0x65, 0xFA, 0x9F);
  }

  lemma ThirdOfHello()
    ensures Masked(HELLO, HELLO_KEY)[2] == 0x4D
  {
    assert XorBits(0, 0, 1) == 0;
    assert XorBits(1, 0, 2) == 1;
    assert XorBits(3, 1, 3) == 2;
    assert XorBits(6, 2, 4) == 4;
    assert XorBits(13, 4, 5) == 9;
    assert XorBits(27, 8, 6) == 19;
    assert XorBits(54, 16, 7) == 38;
    MaskedAt(HELLO, HELLO_KEY, 2, 0x6C, 0x21, 0x4D);
  }

  lemma FourthOfHello()
    ensures Masked(HELLO, HELLO_KEY)[3] == 0x51
  {
    assert XorBits(0, 0, 1) == 0;
    assert XorBits(1, 0, 2) == 1;
    assert XorBits(3, 1, 3) == 2;
    assert XorBits(6, 3, 4) == 5;
    assert XorBits(13, 7, 5) == 10;
    assert XorBits(27, 15, 6) == 20;
    assert XorBits(54, 30, 7) == 40;
    MaskedAt(HELLO, HELLO_KEY, 3, 0x6C, 0x3D, 0x51);
  }

  lemma FifthOfHello()
    ensures Masked(HELLO, HELLO_KEY)[4] == 0x58
  {
    assert XorBits(0, 0, 1) == 0;
    assert XorBits(1, 0, 2) == 1;
    assert XorBits(3, 1, 3) == 2;
    assert XorBits(6, 3, 4) == 5;
    assert XorBits(13, 6, 5) == 11;
    assert XorBits(27, 13, 6) == 22;
    assert XorBits(55, 27, 7) == 44;
    MaskedAt(HELLO, HELLO_KEY, 4, 0x6F, 0x37, 0x58);
  }

  lemma FiveBytes(s: Bytes, a: byte, b: byte, c: byte, d: byte, e: byte)
    requires |s| == 5 && s[0] == a && s[1] == b && s[2] == c && s[3] == d && s[4] == e
    ensures s == [a, b, c, d, e]
  {
  }

  lemma HelloMasked()
    ensures Masked(HELLO, HELLO_KEY) == [0x7F, 0x9F, 0x4D, 0x51, 0x58]
  {
    FirstOfHello();
    SecondOfHello();
    ThirdOfHello();
    FourthOfHello();
    FifthOfHello();
    FiveBytes(Masked(HELLO, HELLO_KEY), 0x7F, 0x9F, 0x4D, 0x51, 0x58);
  }

  /** The examples of section 5.7: a masked and an unmasked text message, and the
      headers of binary messages of 256 bytes and of 64 KiB. */
  lemma StandardExamples(payload: Bytes)
    ensures ClientText(HELLO, HELLO_KEY) == Some(MASKED_HELLO)
    ensures ReadFrame(MASKED_HELLO) == Some((Frame(1, HELLO), []))
    ensures ServerFrame(Frame(1, HELLO)) == Some([0x81, 0x05] + HELLO)
    ensures |payload| == 256 ==> ServerFrame(Frame(2, payload)) == Some([0x82, 0x7E, 0x01, 0x00] + payload)
    ensures |payload| == 65536 ==>
              ServerFrame(Frame(2, payload)) == Some([0x82, 0x7F, 0, 0, 0, 0, 0, 1, 0, 0] + payload)
  {
    HelloMessages();
    ReadsBack(HELLO, HELLO_KEY, MASKED_HELLO);
    LongMessages(payload);
  }

  lemma ReadsBack(text: Bytes, key: Key, bytes: Bytes)
    requires ClientText(text, key) == Some(bytes)
    ensures ReadFrame(bytes) == Some((Frame(1, text), []))
  {
    ClientRoundTrip(text, key, []);
    assert bytes + [] == bytes;
  }

  lemma LongMessages(payload: Bytes)
    ensures |payload| == 256 ==> ServerFrame(Frame(2, payload)) == Some([0x82, 0x7E, 0x01, 0x00] + payload)
    ensures |payload| == 65536 ==>
              ServerFrame(Frame(2, payload)) == Some([0x82, 0x7F, 0, 0, 0, 0, 0, 1, 0, 0] + payload)
  {
    LongHeaders();
    LengthFits(256);
  }

  lemma HelloMessages()
    ensures ClientText(HELLO, HELLO_KEY) == Some(MASKED_HELLO)
    ensures ServerFrame(Frame(1, HELLO)) == Some([0x81, 0x05] + HELLO)
  {
    HelloMasked();
    LengthFits(5);
    assert [129] + [128 + 5] + HELLO_KEY + [0x7F, 0x9F, 0x4D, 0x51, 0x58] == MASKED_HELLO;
    assert [0x81] + [5] + HELLO == [0x81, 0x05] + HELLO;
  }

  lemma LongHeaders()
    ensures [0x82] + LengthField(256, 0) == [0x82, 0x7E, 0x01, 0x00]
    ensures 65536 < Power256(8) && [0x82] + LengthField(65536, 0) == [0x82, 0x7F, 0, 0, 0, 0, 0, 1, 0, 0]
  {
    LengthFits(256);
    LengthFits(65536);
    EightBytes();
    assert BigEndian(256, 2) == [1, 0];
  }

  lemma EightBytes()
    ensures BigEndian(65536, 8) == [0, 0, 0, 0, 0, 1, 0, 0]
  {
    assert BigEndian(1, 6) == [0, 0, 0, 0, 0, 1];
    assert BigEndian(256, 7) == BigEndian(1, 6) + [0];
    assert BigEndian(65536, 8) == BigEndian(256, 7) + [0];
  }

  /** A frame the server writes is final and carries the opcode: for an opcode of
      four bits the first byte is the final bit and the opcode, and what follows is
      unmasked. */
  lemma FirstBytes(f: Frame)
    requires ServerFrame(f).Some?
    ensures var bytes := ServerFrame(f).value;
            && |bytes| >= 2 && Bit(bytes[0], 7) && !Bit(bytes[1], 7)
            && (f.opcode < 16 ==> bytes[0] == 128 + f.opcode)
            && |bytes| >= |f.payload| && bytes[|bytes| - |f.payload|..] == f.payload
  {
    var first := WithFin(f.opcode);
    TopBit(first);
    TopBit(LengthField(|f.payload|, 0)[0]);
  }

  lemma TopBit(b: byte)
    ensures Bit(b, 7) <==> b >= 128
  {
    var b1 := b / 2;
    var b2 := b1 / 2;
    var b3 := b2 / 2;
    var b4 := b3 / 2;
    var b5 := b4 / 2;
    var b6 := b5 / 2;
    assert Bit(b, 7) == Bit(b1, 6) == Bit(b2, 5) == Bit(b3, 4) == Bit(b4, 3);
    assert Bit(b4, 3) == Bit(b5, 2) == Bit(b6, 1) == Bit(b6 / 2, 0);
  }

  // ------------------------------------------------------------- the socket

  /** `incoming` is what the peer will have sent when the connection ends;
      `outgoing` is what was sent to it. */
  class Socket {
    var incoming: Bytes
    var outgoing: Bytes

    constructor (incoming: Bytes)
      ensures this.incoming == incoming && outgoing == []
    {
      this.incoming, outgoing := incoming, [];
    }

    /** Some bytes, as many as the network happens to have; none at the end. */
    method Recv(limit: nat) returns (chunk: Bytes)
      requires limit > 0
      modifies this`incoming
      ensures |chunk| <= limit && old(incoming) == chunk + incoming
      ensures chunk == [] <==> old(incoming) == []
    {
      if incoming == [] {
        return [];
      }
      var n :| 0 < n <= limit && n <= |incoming|;
      chunk, incoming := incoming[..n], incoming[n..];
    }

    method SendAll(bytes: Bytes)
      modifies this`outgoing
      ensures outgoing == old(outgoing) + bytes
    {
      outgoing := outgoing + bytes;
    }
  }

  /** None when the connection closes first. */
  method RecvExact(sock: Socket, length: nat) returns (r: Option<Bytes>)
    modifies sock`incoming
    ensures r.Some? <==> length <= |old(sock.incoming)|
    ensures r.Some? ==> r.value == old(sock.incoming)[..length] && sock.incoming == old(sock.incoming)[length..]
  {
    var data: Bytes := [];
    while |data| < length
      invariant |data| <= length && old(sock.incoming) == data + sock.incoming
    {
      var chunk := sock.Recv(length - |data|);
      if chunk == [] {
        return None;
      }
      data := data + chunk;
    }
    return Some(data);
  }

  method ReadHeaderFrom(sock: Socket) returns (r: Option<Header>)
    modifies sock`incoming
    ensures r == ReadHeader(old(sock.incoming))
    ensures r.Some? ==> sock.incoming == old(sock.incoming)[r.value.size..]
  {
    ghost var s := sock.incoming;
    var first := RecvExact(sock, 1);
    if first.None? {
      return None;
    }
    var second := RecvExact(sock, 1);
    if second.None? {
      return None;
    }
    assert sock.incoming == s[2..] && first.value[0] == s[0] && second.value[0] == s[1];
    var opcode, masked, length: nat := first.value[0] % 16, second.value[0] >= 128, second.value[0] % 128;
    var width := if length == 126 then 2 else if length == 127 then 8 else 0;
    if width > 0 {
      var field := RecvExact(sock, width);
      if field.None? {
        return None;
      }
      assert s[2..][..width] == s[2..2 + width];
      length := FromBigEndian(field.value);
    }
    return Some(Header(opcode, masked, length, 2 + width));
  }

  /** However the socket splits the bytes, one frame is read off their front. */
  method ReadFrameFrom(sock: Socket) returns (r: Option<Frame>)
    modifies sock`incoming
    ensures match ReadFrame(old(sock.incoming))
            case None => r == None
            case Some((frame, rest)) => r == Some(frame) && sock.incoming == rest
  {
    ghost var s := sock.incoming;
    var header := ReadHeaderFrom(sock);
    if header.None? {
      return None;
    }
    var h := header.value;
    ghost var after := sock.incoming;
    assert after == s[h.size..];
    var key: Key := [0, 0, 0, 0];
    if h.masked {
      var bytes := RecvExact(sock, 4);
      if bytes.None? {
        return None;
      }
      key := bytes.value;
      AfterKey(s, h.size, 4);
    }
    ghost var start := if h.masked then h.size + 4 else h.size;
    assert sock.incoming == s[start..];
    var payload := RecvExact(sock, h.length);
    if payload.None? {
      return None;
    }
    AfterKey(s, start, h.length);
    BodyOf(s, h, if h.masked then key else [], payload.value, sock.incoming);
    return Some(Frame(h.opcode, if h.masked then Masked(payload.value, key) else payload.value));
  }

  lemma AfterKey(s: Bytes, start: nat, length: nat)
    requires start + length <= |s|
    ensures s[start..][..length] == s[start..start + length] && s[start..][length..] == s[start + length..]
  {
  }

  /** Reads frames until the connection ends. */
  method ReadAll(sock: Socket) returns (frames: seq<Frame>)
    modifies sock`incoming
    ensures frames == ReadFrames(old(sock.incoming))
  {
    frames := [];
    var more := true;
    ghost var all := ReadFrames(sock.incoming);
    while more
      invariant more ==> all == frames + ReadFrames(sock.incoming)
      invariant !more ==> all == frames
      decreases more, |sock.incoming|
    {
      ghost var s := sock.incoming;
      var r := ReadFrameFrom(sock);
      if r.Some? {
        frames := frames + [r.value];
      } else {
        more := false;
      }
    }
  }

  /** The header grows byte by byte; nothing is sent when the source raises. */
  method SendFrame(sock: Socket, opcode: nat, payload: Bytes) returns (ok: bool)
    modifies sock`outgoing
    ensures var bytes := ServerFrame(Frame(opcode, payload));
            && ok == bytes.Some?
            && sock.outgoing == old(sock.outgoing) + if ok then bytes.value else []
  {
    if WithFin(opcode) >= 256 {
      return false;
    }
    var header: Bytes := [WithFin(opcode)];
    var n := |payload|;
    LengthFits(n);
    if n < 126 {
      header := header + [n];
    } else if n <= 65535 {
      header := header + [126];
      header := header + BigEndian(n, 2);
    } else {
      header := header + [127];
      if n >= Power256(8) {
        return false;
      }
      header := header + BigEndian(n, 8);
    }
    assert header == [WithFin(opcode)] + LengthField(n, 0);
    sock.SendAll(header + payload);
    return true;
  }

  method SendText(sock: Socket, text: Bytes, mask: Key) returns (ok: bool)
    modifies sock`outgoing
    ensures var bytes := ClientText(text, mask);
            && ok == bytes.Some?
            && sock.outgoing == old(sock.outgoing) + if ok then bytes.value else []
  {
    var header: Bytes := [129];
    var n := |text|;
    LengthFits(n);
    if n < 126 {
      header := header + [128 + n];
    } else if n < 65536 {
      header := header + ([254] + BigEndian(n, 2));
    } else {
      if n >= Power256(8) {
        return false;
      }
      header := header + ([255] + BigEndian(n, 8));
    }
    assert header == [129] + LengthField(n, 128);
    header := header + mask;
    sock.SendAll(header + Masked(text, mask));
    return true;
  }
}
