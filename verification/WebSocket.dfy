/**
 The hand-written WebSocket frame writer and reader (sections 5.2 and 5.3 of RFC 6455).
 `Encode` is the RFC's frame layout, with every choice a peer may make; the writer produces one
 instance of it and the reader inverts all of them.
 */
module WebSocket {
  import opened Octets
  import opened Wrappers

  const CONTINUATION: bv8 := 0x00
  const TEXT: bv8 := 0x01
  const BINARY: bv8 := 0x02
  const CLOSE: bv8 := 0x08
  const PING: bv8 := 0x09
  const PONG: bv8 := 0x0A

  const MAX_FRAME_BYTES := 16 * 1024 * 1024

  datatype WsFrame = Binary(data: seq<bv8>) | Text(data: seq<bv8>) | Ping | Pong | Close | Other

  datatype ReadError = UnexpectedEof | FrameTooLarge(size: nat)

  // ---- Frame layout of the RFC ----

  /** The three length encodings: in the second byte, in two more, in eight more. */
  datatype LengthForm = Short | Medium | Long

  /** `lead` carries FIN, the reserved bits and the opcode. */
  datatype Wire = Wire(lead: bv8, form: LengthForm, mask: Option<seq<bv8>>, payload: seq<bv8>) {
    ghost predicate Valid() {
      && (mask.Some? ==> |mask.value| == 4)
      && match form
         case Short => |payload| < 126
         case Medium => |payload| < 0x1_0000
         case Long => |payload| < 0x1_0000_0000_0000_0000
    }

    function Opcode(): bv8 {
      lead & 0x0F
    }
  }

  function Masked(data: seq<bv8>, key: seq<bv8>): (r: seq<bv8>)
    requires |key| == 4
    ensures |r| == |data| && forall i :: 0 <= i < |data| ==> r[i] == data[i] ^ key[i % 4]
  {
    seq(|data|, i requires 0 <= i < |data| => data[i] ^ key[i % 4])
  }

  lemma MaskTwice(data: seq<bv8>, key: seq<bv8>)
    requires |key| == 4
    ensures Masked(Masked(data, key), key) == data
  {
    forall i | 0 <= i < |data| ensures Masked(Masked(data, key), key)[i] == data[i] {
      XorTwice(data[i], key[i % 4]);
    }
  }

  lemma XorTwice(b: bv8, k: bv8)
    ensures (b ^ k) ^ k == b
  {
  }

  /** Most significant byte first. */
  function ToBytes(count: nat, n: nat): (b: seq<bv8>)
    ensures |b| == count
  {
    if count == 0 then [] else ToBytes(count - 1, n / 256) + [ByteOf(n % 256)]
  }

  function FromBytes(b: seq<bv8>): nat {
    if b == [] then 0 else FromBytes(b[..|b| - 1]) * 256 + ValueOf(b[|b| - 1])
  }

  function Pow256(k: nat): (p: nat)
    ensures p > 0
  {
    if k == 0 then 1 else 256 * Pow256(k - 1)
  }

  lemma {:induction false} BytesRoundTrip(count: nat, n: nat)
    requires n < Pow256(count)
    ensures FromBytes(ToBytes(count, n)) == n
  {
    if count > 0 {
      BytesRoundTrip(count - 1, n / 256);
      var b := ToBytes(count, n);
      assert b[..count - 1] == ToBytes(count - 1, n / 256);
      ByteRoundTrip(n % 256);
    }
  }

  lemma DivTwice(n: nat, d: nat)
    requires d > 0
    ensures n / 256 / d == n / (256 * d)
  {
    var q, r := n / 256, n % 256;
    var a, b := q / d, q % d;
    assert n == 256 * (d * a + b) + r;
    assert n == (256 * d) * a + (256 * b + r);
    assert 0 <= 256 * b + r < 256 * d;
    QuotientIs(n, 256 * d, a, 256 * b + r);
  }

  lemma Distributes(d: int, a: int, e: int)
    ensures d * (a + e) == d * a + d * e
  {
  }

  lemma AtLeastOnce(d: int, e: int)
    requires d > 0 && e >= 1
    ensures d * e >= d
  {
  }

  lemma QuotientIs(n: int, d: int, q: int, r: int)
    requires 0 <= r < d && n == d * q + r
    ensures n / d == q
  {
    var k, s := n / d, n % d;
    assert n == d * k + s && 0 <= s < d;
    if k > q {
      Distributes(d, q, k - q);
      AtLeastOnce(d, k - q);
      assert false;
    } else if k < q {
      Distributes(d, k, q - k);
      AtLeastOnce(d, q - k);
      assert false;
    }
  }

  /** Network byte order: the first byte is the most significant one. */
  lemma {:induction false} NetworkOrder(count: nat, n: nat, i: nat)
    requires i < count
    ensures ValueOf(ToBytes(count, n)[i]) == n / Pow256(count - 1 - i) % 256
    decreases count
  {
    hide ValueOf, ByteOf;
    if i == count - 1 {
      ByteRoundTrip(n % 256);
      assert Pow256(0) == 1 && n / 1 == n;
    } else {
      NetworkOrder(count - 1, n / 256, i);
      assert ToBytes(count, n)[i] == ToBytes(count - 1, n / 256)[i];
      DivTwice(n, Pow256(count - 2 - i));
    }
  }

  function ExtraLength(form: LengthForm): nat {
    match form
    case Short => 0
    case Medium => 2
    case Long => 8
  }

  function LengthCode(form: LengthForm, n: nat): (c: bv8)
    requires form.Short? ==> n < 126
  {
    match form
    case Short => ByteOf(n)
    case Medium => 126
    case Long => 127
  }

  function Header(f: Wire): (h: seq<bv8>)
    requires f.Valid()
    ensures |h| == 2 + ExtraLength(f.form)
  {
    [f.lead, (if f.mask.Some? then 0x80 else 0) | LengthCode(f.form, |f.payload|)]
      + ToBytes(ExtraLength(f.form), |f.payload|)
  }

  function Body(f: Wire): seq<bv8>
    requires f.Valid()
  {
    match f.mask
    case None => f.payload
    case Some(key) => key + Masked(f.payload, key)
  }

  function Encode(f: Wire): seq<bv8>
    requires f.Valid()
  {
    Header(f) + Body(f)
  }

  // ---- The reader ----

  function Classify(opcode: bv8, payload: seq<bv8>): WsFrame {
    if opcode == BINARY || opcode == CONTINUATION then Binary(payload)
    else if opcode == TEXT then Text(payload)
    else if opcode == PING then Ping
    else if opcode == PONG then Pong
    else if opcode == CLOSE then Close
    else Other
  }

  /** Data for the application: payloads of continuation, text and binary frames (section 5.6 and 5.4 of RFC 6455). */
  function Carried(opcode: bv8, payload: seq<bv8>): seq<bv8> {
    if opcode == 0 || opcode == 1 || opcode == 2 then payload else []
  }

  function Content(frame: WsFrame): seq<bv8> {
    match frame
    case Binary(data) => data
    case Text(data) => data
    case _ => []
  }

  /** A frame is what its opcode says: data, or one of the control frames 8, 9 and 10 (section 11.8 of RFC 6455). */
  predicate Means(frame: WsFrame, opcode: bv8, payload: seq<bv8>) {
    && Content(frame) == Carried(opcode, payload)
    && (frame.Text? <==> opcode == 1) && (frame.Binary? <==> opcode == 0 || opcode == 2)
    && (frame.Close? <==> opcode == 8) && (frame.Ping? <==> opcode == 9) && (frame.Pong? <==> opcode == 10)
  }

  lemma OpcodesMean(opcode: bv8, payload: seq<bv8>)
    ensures Means(Classify(opcode, payload), opcode, payload)
  {
  }

  /** What the bytes before the payload say. */
  datatype HeaderInfo = HeaderInfo(opcode: bv8, masked: bool, size: nat)

  /** Extra length bytes announced by the second byte of a frame. */
  function Announced(second: bv8): nat {
    if second & 0x7F == 126 then 2 else if second & 0x7F == 127 then 8 else 0
  }

  function DecodeHeader(s: seq<bv8>): (Option<HeaderInfo>, seq<bv8>) {
    if |s| < 2 || |s| < 2 + Announced(s[1]) then (None, [])
    else
      var start := 2 + Announced(s[1]);
      var size := if start == 2 then ValueOf(s[1] & 0x7F) else FromBytes(s[2..start]);
      (Some(HeaderInfo(s[0] & 0x0F, s[1] & 0x80 != 0, size)), s[start..])
  }

  function DecodeBody(h: HeaderInfo, s: seq<bv8>): (Result<WsFrame, ReadError>, seq<bv8>) {
    if h.size > MAX_FRAME_BYTES then (Err(FrameTooLarge(h.size)), s)
    else if h.masked then
      if |s| < 4 + h.size then (Err(UnexpectedEof), [])
      else (Ok(Classify(h.opcode, Masked(s[4..4 + h.size], s[..4]))), s[4 + h.size..])
    else
      if |s| < h.size then (Err(UnexpectedEof), [])
      else (Ok(Classify(h.opcode, s[..h.size])), s[h.size..])
  }

  /** What one `read_frame` makes of the bytes still to come, and what it leaves. */
  function Decode(s: seq<bv8>): (Result<WsFrame, ReadError>, seq<bv8>) {
    var (h, rest) := DecodeHeader(s);
    if h.None? then (Err(UnexpectedEof), []) else DecodeBody(h.value, rest)
  }

  class WsReader {
    /** Bytes the peer sends from now on. */
    var input: seq<bv8>

    constructor (bytes: seq<bv8>)
      ensures input == bytes
    {
      input := bytes;
    }

    /** All-or-nothing read; at the end of the stream whatever was left is consumed. */
    method ReadExact(count: nat) returns (r: Option<seq<bv8>>)
      modifies this
      ensures r == (if count <= |old(input)| then Some(old(input)[..count]) else None)
      ensures input == (if count <= |old(input)| then old(input)[count..] else [])
    {
      if count <= |input| {
        r := Some(input[..count]);
        input := input[count..];
      } else {
        r := None;
        input := [];
      }
    }

    method ReadFrame() returns (r: Result<WsFrame, ReadError>)
      modifies this
      ensures (r, input) == Decode(old(input))
    {
      var h := ReadHeader();
      if h.None? {
        return Err(UnexpectedEof);
      }
      r := ReadBody(h.value);
    }

    method ReadHeader() returns (r: Option<HeaderInfo>)
      modifies this
      ensures (r, input) == DecodeHeader(old(input))
    {
      ghost var s := input;
      var h := ReadExact(2);
      if h.None? {
        return None;
      }
      var opcode := h.value[0] & 0x0F;
      var masked := h.value[1] & 0x80 != 0;
      var lenByte := h.value[1] & 0x7F;
      if lenByte == 126 || lenByte == 127 {
        ghost var extra := Announced(s[1]);
        var b := ReadExact(if lenByte == 126 then 2 else 8);
        if b.None? {
          return None;
        }
        assert b.value == s[2..2 + extra] && input == s[2 + extra..];
        return Some(HeaderInfo(opcode, masked, FromBytes(b.value)));
      }
      return Some(HeaderInfo(opcode, masked, ValueOf(lenByte)));
    }

    method ReadBody(h: HeaderInfo) returns (r: Result<WsFrame, ReadError>)
      modifies this
      ensures (r, input) == DecodeBody(h, old(input))
    {
      ghost var s := input;
      if h.size > MAX_FRAME_BYTES {
        return Err(FrameTooLarge(h.size));
      }
      var key: Option<seq<bv8>> := None;
      if h.masked {
        key := ReadExact(4);
        if key.None? {
          return Err(UnexpectedEof);
        }
      }
      var raw := Some([]);
      if h.size > 0 {
        raw := ReadExact(h.size);
        if raw.None? {
          return Err(UnexpectedEof);
        }
      }
      var payload := raw.value;
      if key.Some? {
        assert payload == s[4..4 + h.size] && input == s[4 + h.size..];
        payload := XorInPlace(payload, key.value);
      } else {
        assert payload == s[..h.size] && input == s[h.size..];
      }
      return Ok(Classify(h.opcode, payload));
    }
  }

  /** The masking loop of both directions, over a buffer it owns. */
  method XorInPlace(data: seq<bv8>, key: seq<bv8>) returns (r: seq<bv8>)
    requires |key| == 4
    ensures r == Masked(data, key)
  {
    var buffer := new bv8[|data|](i requires 0 <= i < |data| => data[i]);
    for i := 0 to buffer.Length
      invariant forall k :: 0 <= k < i ==> buffer[k] == data[k] ^ key[k % 4]
      invariant forall k :: i <= k < |data| ==> buffer[k] == data[k]
    {
      buffer[i] := buffer[i] ^ key[i % 4];
    }
    r := buffer[..];
  }

  // ---- The writer ----

  function ShortestForm(n: nat): LengthForm {
    if n < 126 then Short else if n <= 0xFFFF then Medium else Long
  }

  /** The frame `write_frame` produces: final, no reserved bits, shortest length, masked. */
  function Written(opcode: bv8, payload: seq<bv8>, key: seq<bv8>): Wire {
    Wire(0x80 | opcode, ShortestForm(|payload|), Some(key), payload)
  }

  lemma PrefixOfConcat(a: seq<bv8>, b: seq<bv8>, k: nat)
    ensures k <= |a| ==> (a + b)[..k] == a[..k]
    ensures |a| <= k <= |a + b| ==> (a + b)[..k] == a + b[..k - |a|]
  {
  }

  class WsWriter {
    /** Bytes handed to the connection so far. */
    var output: seq<bv8>
    /** Bytes the connection still takes before its next write fails. */
    var room: nat

    constructor (capacity: nat)
      ensures output == [] && room == capacity
    {
      output := [];
      room := capacity;
    }

    method WriteAll(bytes: seq<bv8>) returns (ok: bool)
      modifies this
      ensures ok == (|bytes| <= old(room))
      ensures ok ==> output == old(output) + bytes && room == old(room) - |bytes|
      ensures !ok ==> output == old(output) + bytes[..old(room)] && room == 0
    {
      if |bytes| <= room {
        output := output + bytes;
        room := room - |bytes|;
        ok := true;
      } else {
        output := output + bytes[..room];
        room := 0;
        ok := false;
      }
    }

    /**
     Appends one whole frame, or as much of it as the connection takes. The mask key is random;
     any four bytes do.
     */
    method WriteFrame(opcode: bv8, payload: seq<bv8>, key: seq<bv8>) returns (ok: bool)
      requires |key| == 4 && |payload| < 0x1_0000_0000_0000_0000
      modifies this
      ensures var frame := Encode(Written(opcode, payload, key));
              && ok == (|frame| <= old(room))
              && output == old(output) + (if ok then frame else frame[..old(room)])
              && (ok ==> room == old(room) - |frame|)
    {
      ghost var wire := Written(opcode, payload, key);
      ok := WriteHeader(opcode, |payload|, key, payload);
      PrefixOfConcat(Header(wire), Body(wire), old(room));
      if ok {
        ok := WriteBody(payload, key);
      }
    }

    method WriteBody(payload: seq<bv8>, key: seq<bv8>) returns (ok: bool)
      requires |key| == 4
      modifies this
      ensures var body := key + Masked(payload, key);
              && ok == (|body| <= old(room))
              && output == old(output) + (if ok then body else body[..old(room)])
              && (ok ==> room == old(room) - |body|)
    {
      ok := WriteAll(key);
      PrefixOfConcat(key, Masked(payload, key), old(room));
      if ok {
        var masked := XorInPlace(payload, key);
        ok := WriteAll(masked);
      }
    }

    method WriteHeader(opcode: bv8, n: nat, ghost key: seq<bv8>, ghost payload: seq<bv8>) returns (ok: bool)
      requires |key| == 4 && n == |payload| < 0x1_0000_0000_0000_0000
      modifies this
      ensures var header := Header(Written(opcode, payload, key));
              && ok == (|header| <= old(room))
              && output == old(output) + (if ok then header else header[..old(room)])
              && (ok ==> room == old(room) - |header|)
    {
      var finOpcode := 0x80 | opcode;
      ghost var header := Header(Written(opcode, payload, key));
      if n < 126 {
        ok := WriteAll([finOpcode, 0x80 | ByteOf(n)]);
        assert header == [finOpcode, 0x80 | ByteOf(n)];
      } else if n <= 0xFFFF {
        ok := WriteAll([finOpcode, 0x80 | 126]);
        if ok {
          ok := WriteAll(ToBytes(2, n));
        }
        assert header == [finOpcode, 0x80 | 126] + ToBytes(2, n);
      } else {
        ok := WriteAll([finOpcode, 0x80 | 127]);
        if ok {
          ok := WriteAll(ToBytes(8, n));
        }
        assert header == [finOpcode, 0x80 | 127] + ToBytes(8, n);
      }
    }
  }

  // ---- The reader inverts the layout ----

  lemma SecondByte(masked: bool, code: bv8)
    requires code <= 127
    ensures var b := (if masked then 0x80 else 0) | code;
            b & 0x7F == code && (b & 0x80 != 0 <==> masked)
  {
  }

  /** The second byte names the mask bit, the form and, in the short form, the size. */
  lemma SecondByteOf(f: Wire)
    requires f.Valid()
    ensures var b := Header(f)[1];
            && Announced(b) == ExtraLength(f.form)
            && (b & 0x80 != 0 <==> f.mask.Some?)
            && (f.form.Short? ==> ValueOf(b & 0x7F) == |f.payload|)
  {
    var code := LengthCode(f.form, |f.payload|);
    if f.form.Short? {
      ByteRoundTrip(|f.payload|);
      BelowSpecialLengths(|f.payload|);
    }
    SecondByte(f.mask.Some?, code);
  }

  lemma SizeBytes(f: Wire)
    requires f.Valid() && !f.form.Short?
    ensures FromBytes(ToBytes(ExtraLength(f.form), |f.payload|)) == |f.payload|
  {
    EightBytes();
    BytesRoundTrip(ExtraLength(f.form), |f.payload|);
  }

  /** Reading a header back, whatever follows it. */
  lemma DecodeHeaderOf(f: Wire, tail: seq<bv8>)
    requires f.Valid()
    ensures DecodeHeader(Header(f) + tail)
         == (Some(HeaderInfo(f.Opcode(), f.mask.Some?, |f.payload|)), tail)
  {
    var h := Header(f);
    var s := h + tail;
    var k := ExtraLength(f.form);
    SecondByteOf(f);
    assert s[0] == f.lead && s[1] == h[1];
    assert s[2 + k..] == tail;
    if !f.form.Short? {
      SizeBytes(f);
      assert s[2..2 + k] == ToBytes(k, |f.payload|);
    }
  }

  lemma EightBytes()
    ensures Pow256(2) == 0x1_0000 && Pow256(8) == 0x1_0000_0000_0000_0000
  {
    assert Pow256(2) == 0x1_0000;
    assert Pow256(4) == 0x1_0000_0000;
    assert Pow256(6) == 0x1_0000_0000_0000;
  }

  lemma DecodePlainBody(opcode: bv8, payload: seq<bv8>, rest: seq<bv8>)
    requires |payload| <= MAX_FRAME_BYTES
    ensures DecodeBody(HeaderInfo(opcode, false, |payload|), payload + rest) == (Ok(Classify(opcode, payload)), rest)
  {
    hide Classify;
    var s := payload + rest;
    assert s[..|payload|] == payload && s[|payload|..] == rest;
  }

  lemma DecodeMaskedBody(opcode: bv8, payload: seq<bv8>, key: seq<bv8>, rest: seq<bv8>)
    requires |payload| <= MAX_FRAME_BYTES && |key| == 4
    ensures DecodeBody(HeaderInfo(opcode, true, |payload|), key + Masked(payload, key) + rest) ==
              (Ok(Classify(opcode, payload)), rest)
  {
    hide Classify, Masked;
    var n := |payload|;
    var s := key + Masked(payload, key) + rest;
    assert s[..4] == key && s[4..4 + n] == Masked(payload, key) && s[4 + n..] == rest;
    MaskTwice(payload, key);
  }

  /**
   For every frame the RFC allows, in every length form, masked or not, the reader returns the
   payload and class that were sent and consumes exactly the frame.
   */
  lemma DecodeEncode(f: Wire, rest: seq<bv8>)
    requires f.Valid() && |f.payload| <= 0x100_0000
    ensures Decode(Encode(f) + rest) == (Ok(Classify(f.Opcode(), f.payload)), rest)
  {
    hide Classify, Masked, Header, DecodeHeader, DecodeBody;
    var s := Body(f) + rest;
    assert Encode(f) + rest == Header(f) + s;
    DecodeHeaderOf(f, s);
    match f.mask
    case None => DecodePlainBody(f.Opcode(), f.payload, rest);
    case Some(key) => DecodeMaskedBody(f.Opcode(), f.payload, key, rest);
  }

  /** Beyond the cap the reader refuses, having consumed only the header. */
  lemma DecodeOversize(f: Wire, rest: seq<bv8>)
    requires f.Valid() && |f.payload| > 0x100_0000
    ensures Decode(Encode(f) + rest) == (Err(FrameTooLarge(|f.payload|)), Body(f) + rest)
  {
    assert Encode(f) + rest == Header(f) + (Body(f) + rest);
    DecodeHeaderOf(f, Body(f) + rest);
  }

  /** A frame cut short is never mistaken for a frame. */
  lemma DecodeTruncated(f: Wire, cut: nat)
    requires f.Valid() && cut < |Encode(f)|
    ensures Decode(Encode(f)[..cut]).0.Err?
    ensures |f.payload| <= MAX_FRAME_BYTES ==> Decode(Encode(f)[..cut]).0 == Err(UnexpectedEof)
  {
    var p := Encode(f)[..cut];
    var h := |Header(f)|;
    if h <= cut {
      assert p == Header(f) + Body(f)[..cut - h];
      DecodeHeaderOf(f, Body(f)[..cut - h]);
    } else if 2 <= cut {
      DecodeHeaderOf(f, []);
      assert p[1] == (Header(f) + [])[1];
    }
  }

  // ---- Streams of frames ----

  datatype Sent = Sent(opcode: bv8, payload: seq<bv8>, key: seq<bv8>)

  ghost predicate Sendable(s: Sent) {
    |s.key| == 4 && s.opcode < 16 && |s.payload| <= MAX_FRAME_BYTES
  }

  ghost predicate AllSendable(sent: seq<Sent>) {
    forall i :: 0 <= i < |sent| ==> Sendable(sent[i])
  }

  function SentBytes(s: Sent): seq<bv8>
    requires Sendable(s)
  {
    Encode(Written(s.opcode, s.payload, s.key))
  }

  function WriteStream(sent: seq<Sent>): seq<bv8>
    requires AllSendable(sent)
  {
    if sent == [] then []
    else SentBytes(sent[0]) + WriteStream(sent[1..])
  }

  function ReadStream(count: nat, s: seq<bv8>): (Result<seq<WsFrame>, ReadError>, seq<bv8>) {
    if count == 0 then (Ok([]), s)
    else
      var (first, rest) := Decode(s);
      match first
      case Err(e) => (Err(e), rest)
      case Ok(frame) =>
        var (frames, end) := ReadStream(count - 1, rest);
        (match frames case Err(e) => Err(e) case Ok(fs) => Ok([frame] + fs), end)
  }

  function Received(sent: seq<Sent>): (frames: seq<WsFrame>)
    ensures |frames| == |sent|
    ensures forall i :: 0 <= i < |sent| ==> Means(frames[i], sent[i].opcode, sent[i].payload)
  {
    OpcodesMeanAll();
    if sent == [] then [] else [Classify(sent[0].opcode, sent[0].payload)] + Received(sent[1..])
  }

  /** The frames are, in order, what the opcodes and payloads say. */
  predicate AllMean(frames: seq<WsFrame>, sent: seq<Sent>) {
    |frames| == |sent| && forall i :: 0 <= i < |sent| ==> Means(frames[i], sent[i].opcode, sent[i].payload)
  }

  lemma OpcodesMeanAll()
    ensures forall opcode, payload :: Means(Classify(opcode, payload), opcode, payload)
  {
  }

  lemma FinBit(opcode: bv8)
    requires opcode < 16
    ensures (0x80 | opcode) & 0x0F == opcode
  {
  }

  lemma ReadStreamStep(count: nat, s: seq<bv8>, frame: WsFrame, rest: seq<bv8>, fs: seq<WsFrame>, end: seq<bv8>)
    requires Decode(s) == (Ok(frame), rest) && ReadStream(count, rest) == (Ok(fs), end)
    ensures ReadStream(count + 1, s) == (Ok([frame] + fs), end)
  {
  }

  lemma FrameThenStream(s: Sent, tail: seq<bv8>, count: nat, fs: seq<WsFrame>, end: seq<bv8>)
    requires Sendable(s)
    requires ReadStream(count, tail) == (Ok(fs), end)
    ensures ReadStream(count + 1, SentBytes(s) + tail)
         == (Ok([Classify(s.opcode, s.payload)] + fs), end)
  {
    var f := Written(s.opcode, s.payload, s.key);
    DecodeEncode(f, tail);
    FinBit(s.opcode);
    ReadStreamStep(count, Encode(f) + tail, Classify(s.opcode, s.payload), tail, fs, end);
  }

  lemma SameBytes(count: nat, s: seq<bv8>, t: seq<bv8>, r: (Result<seq<WsFrame>, ReadError>, seq<bv8>))
    requires s == t && ReadStream(count, s) == r
    ensures ReadStream(count, t) == r
  {
  }

  lemma WriteStreamThen(sent: seq<Sent>, rest: seq<bv8>)
    requires AllSendable(sent) && sent != []
    ensures WriteStream(sent) + rest == SentBytes(sent[0]) + (WriteStream(sent[1..]) + rest)
  {
  }

  /**
   Whatever the opcodes, payload sizes and mask keys, reading back what was written returns the
   same frames in order and consumes exactly the written bytes.
   */
  lemma {:induction false} StreamRoundTrip(sent: seq<Sent>, rest: seq<bv8>)
    requires AllSendable(sent)
    ensures ReadStream(|sent|, WriteStream(sent) + rest) == (Ok(Received(sent)), rest)
    ensures AllMean(Received(sent), sent)
  {
    if sent == [] {
      assert WriteStream(sent) + rest == rest;
    } else {
      var tail := WriteStream(sent[1..]) + rest;
      StreamRoundTrip(sent[1..], rest);
      FrameThenStream(sent[0], tail, |sent| - 1, Received(sent[1..]), rest);
      WriteStreamThen(sent, rest);
      SameBytes(|sent|, SentBytes(sent[0]) + tail, WriteStream(sent) + rest, (Ok(Received(sent)), rest));
    }
  }

  /** Writes one frame after the other. */
  method SendAll(writer: WsWriter, sent: seq<Sent>)
    requires AllSendable(sent) && |WriteStream(sent)| <= writer.room
    modifies writer
    ensures writer.output == old(writer.output) + WriteStream(sent)
  {
    hide Encode, Written, Sendable;
    ghost var start := writer.output;
    ghost var done: seq<bv8> := [];
    for i := 0 to |sent|
      invariant AllSendable(sent[i..]) && |WriteStream(sent[i..])| <= writer.room
      invariant writer.output == start + done && done + WriteStream(sent[i..]) == WriteStream(sent)
    {
      var s := sent[i];
      SendableFrame(s);
      assert sent[i..][0] == s && sent[i..][1..] == sent[i + 1..];
      WriteStreamThen(sent[i..], []);
      var ok := writer.WriteFrame(s.opcode, s.payload, s.key);
      done := done + SentBytes(s);
    }
    assert sent[|sent|..] == [];
  }

  lemma SendableFrame(s: Sent)
    requires Sendable(s)
    ensures |s.key| == 4 && |s.payload| < 0x1_0000_0000_0000_0000
  {
  }

  /** Reads frames until one fails. */
  method ReceiveAll(reader: WsReader, count: nat) returns (r: Result<seq<WsFrame>, ReadError>)
    modifies reader
    ensures (r, reader.input) == ReadStream(count, old(reader.input))
    decreases count
  {
    hide Decode;
    if count == 0 {
      return Ok([]);
    }
    var first := reader.ReadFrame();
    if first.Err? {
      return Err(first.error);
    }
    var rest := ReceiveAll(reader, count - 1);
    r := match rest case Err(e) => Err(e) case Ok(frames) => Ok([first.value] + frames);
  }

  /** From writer to reader: every frame arrives, in order, and no byte is left over. */
  method EndToEnd(sent: seq<Sent>) returns (frames: seq<WsFrame>, left: seq<bv8>)
    requires AllSendable(sent)
    ensures frames == Received(sent) && AllMean(frames, sent) && left == []
  {
    hide WriteStream, ReadStream, Received, AllSendable;
    var writer := new WsWriter(|WriteStream(sent)|);
    SendAll(writer, sent);
    StreamRoundTrip(sent, []);
    assert writer.output == WriteStream(sent) + [];
    var reader := new WsReader(writer.output);
    var r := ReceiveAll(reader, |sent|);
    frames, left := r.value, reader.input;
  }
}
