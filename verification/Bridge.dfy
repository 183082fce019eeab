/**
 Two endpoints running the bridge loops over one WebSocket connection, as a state machine over
 their steps. Each endpoint forwards its local bytes as binary frames and delivers the data
 frames it reads; when either of its loops ends the endpoint is gone, which may cut a frame that
 is being written. Bytes arrive in arbitrary pieces, and anything between the endpoints may add
 whole frames of its own.
 */
module Bridge {
  import opened Wrappers
  import opened WebSocket

  const READ_BUFFER := 16 * 1024

  /** One direction of the connection. */
  datatype Channel = Channel(
    /** Everything the sender's local side will ever produce. */
    input: seq<bv8>,
    /** How much of it has gone out in whole frames. */
    forwarded: nat,
    /** Whole frames put on the connection, in order. */
    log: seq<Wire>,
    /** A frame the sender did not finish, and how many of its bytes went out. */
    torn: Option<(Wire, nat)>,
    /** A frame that carries data or closes was added by someone other than the sender. */
    tampered: bool,
    /** Bytes that have arrived, and bytes the reader has consumed of them. */
    arrived: nat,
    consumed: nat,
    /** Whole frames consumed. */
    frames: nat,
    /** Bytes written to the reader's local side. */
    delivered: seq<bv8>,
    /** The reader reached a Close frame. */
    closeRead: bool,
    /** A local write failed part way. */
    writeFailed: bool)

  datatype Side = A | B {
    function Peer(): Side {
      if A? then B else A
    }
  }

  datatype System = System(ab: Channel, ba: Channel, aliveA: bool, aliveB: bool) {
    predicate Alive(who: Side) {
      if who.A? then aliveA else aliveB
    }

    function Out(who: Side): Channel {
      if who.A? then ab else ba
    }

    function In(who: Side): Channel {
      if who.A? then ba else ab
    }
  }

  // ---- Bytes and payloads of a log ----

  ghost predicate AllValid(log: seq<Wire>) {
    forall i :: 0 <= i < |log| ==> log[i].Valid()
  }

  function Concat(pieces: seq<seq<bv8>>): seq<bv8> {
    if pieces == [] then [] else pieces[0] + Concat(pieces[1..])
  }

  function Pieces(log: seq<Wire>): (p: seq<seq<bv8>>)
    requires AllValid(log)
    ensures |p| == |log|
  {
    seq(|log|, i requires 0 <= i < |log| => Encode(log[i]))
  }

  /** The bytes of the frames, one after the other. */
  function Stream(log: seq<Wire>): seq<bv8>
    requires AllValid(log)
  {
    Concat(Pieces(log))
  }

  function FrameOf(f: Wire): WsFrame {
    Classify(f.Opcode(), f.payload)
  }

  /** Data a frame carries, by its opcode. */
  function DataOf(f: Wire): seq<bv8> {
    Carried(f.Opcode(), f.payload)
  }

  predicate Closes(f: Wire) {
    f.Opcode() == 8
  }

  lemma FrameMeans(f: Wire)
    ensures Content(FrameOf(f)) == DataOf(f) && (FrameOf(f).Close? <==> Closes(f))
  {
    OpcodesMean(f.Opcode(), f.payload);
  }

  /** Data payloads sent before the first Close. */
  function Data(log: seq<Wire>): seq<bv8> {
    if log == [] || Closes(log[0]) then [] else DataOf(log[0]) + Data(log[1..])
  }

  predicate HasClose(log: seq<Wire>) {
    exists i :: 0 <= i < |log| && Closes(log[i])
  }

  /** Ping, pong, unknown and empty frames. */
  predicate Harmless(f: Wire) {
    DataOf(f) == [] && !Closes(f)
  }

  /** Frames are well formed, and an unfinished one really is unfinished. */
  ghost predicate Framed(c: Channel) {
    && AllValid(c.log)
    && (c.torn.Some? ==> c.torn.value.0.Valid() && c.torn.value.1 < |Encode(c.torn.value.0)|)
  }

  /** The bytes of an unfinished frame that went out. */
  function Fragment(c: Channel): seq<bv8>
    requires Framed(c)
  {
    if c.torn.Some? then Encode(c.torn.value.0)[..c.torn.value.1] else []
  }

  /** Everything put on the connection so far. */
  function Bytes(c: Channel): seq<bv8>
    requires Framed(c)
  {
    Stream(c.log) + Fragment(c)
  }

  ghost predicate WellFormed(c: Channel) {
    Framed(c) && c.consumed <= c.arrived <= |Bytes(c)|
  }

  // ---- Steps ----

  datatype Step =
    | Forward(n: nat, key: seq<bv8>)
    | SendClose(key: seq<bv8>)
    | Tear(frame: Wire, cut: nat)
    | Stop
    | Inject(frame: Wire)
    | Arrive(n: nat)
    | Read(accepted: nat)

  /** The frame a local read of n bytes becomes. */
  function Chunk(c: Channel, n: nat, key: seq<bv8>): Wire
    requires c.forwarded + n <= |c.input|
  {
    Written(BINARY, c.input[c.forwarded..c.forwarded + n], key)
  }

  /**
   The writing loop on its own direction; `ends` says whether the loop ends. A local read error
   is Stop, an error while writing a frame is Tear.
   */
  ghost predicate Sends(c: Channel, d: Channel, step: Step, ends: bool) {
    match step
    case Forward(n, key) =>
      && |key| == 4 && 1 <= n <= READ_BUFFER && c.forwarded + n <= |c.input| && !ends
      && d == c.(log := c.log + [Chunk(c, n, key)], forwarded := c.forwarded + n)
    case SendClose(key) =>
      && |key| == 4 && c.forwarded == |c.input| && ends
      && d == c.(log := c.log + [Written(CLOSE, [], key)])
    case Tear(frame, cut) =>
      && frame.Valid() && cut < |Encode(frame)| && ends
      && d == c.(torn := Some((frame, cut)))
    case Stop => d == c && ends
    case _ => false
  }

  /** What happens to a direction without its sender: added frames, and arrival. */
  ghost predicate Carries(c: Channel, d: Channel, step: Step)
    requires WellFormed(c)
  {
    match step
    case Inject(frame) =>
      && frame.Valid() && c.torn.None?
      && d == c.(log := c.log + [frame], tampered := c.tampered || !Harmless(frame))
    case Arrive(n) => c.arrived + n <= |Bytes(c)| && d == c.(arrived := c.arrived + n)
    case _ => false
  }

  /** One turn of the reading loop on the bytes that have arrived. */
  ghost predicate Reads(c: Channel, d: Channel, accepted: nat, ends: bool)
    requires WellFormed(c)
  {
    var (r, rest) := Decode(Bytes(c)[c.consumed..c.arrived]);
    match r
    case Err(UnexpectedEof) => false
    case Err(FrameTooLarge(_)) => d == c && ends
    case Ok(frame) =>
      && |rest| <= c.arrived
      && Handles(c.(consumed := c.arrived - |rest|, frames := c.frames + 1), d, frame, accepted, ends)
  }

  /** The match of the reading loop; `write_all` takes everything, or a part before its error ends the loop. */
  ghost predicate Handles(c: Channel, d: Channel, frame: WsFrame, accepted: nat, ends: bool) {
    match frame
    case Close => d == c.(closeRead := true) && ends
    case Ping => d == c && !ends
    case Pong => d == c && !ends
    case Other => d == c && !ends
    case Binary(data) => Delivers(c, d, data, accepted, ends)
    case Text(data) => Delivers(c, d, data, accepted, ends)
  }

  ghost predicate Delivers(c: Channel, d: Channel, data: seq<bv8>, accepted: nat, ends: bool) {
    if ends then accepted <= |data| && d == c.(delivered := c.delivered + data[..accepted], writeFailed := true)
    else d == c.(delivered := c.delivered + data)
  }

  /** The writing loop dropped because the other one ended: between frames or inside one. */
  ghost predicate Abandons(c: Channel, d: Channel) {
    || d == c
    || (d.torn.Some? && d.torn.value.0.Valid() && d.torn.value.1 < |Encode(d.torn.value.0)| && d == c.(torn := d.torn))
  }

  /**
   The reading loop dropped because the other one ended: while it waits, or inside the delivery of what it
   has read.
   */
  ghost predicate Interrupted(c: Channel, d: Channel)
    requires WellFormed(c)
  {
    d == c || exists accepted :: Reads(c, d, accepted, true)
  }

  /**
   What one endpoint does; when one of its loops ends the other is dropped wherever it is. Inject and
   Arrive concern the direction it sends in.
   */
  ghost predicate StepBy(s: System, t: System, who: Side, step: Step, ends: bool) {
    && WellFormed(s.ab) && WellFormed(s.ba)
    && (ends ==> !t.Alive(who)) && (!ends ==> t.Alive(who) == s.Alive(who))
    && t.Alive(who.Peer()) == s.Alive(who.Peer())
    && match step
       case Read(accepted) =>
         && s.Alive(who) && Reads(s.In(who), t.In(who), accepted, ends)
         && (if ends then Abandons(s.Out(who), t.Out(who)) else t.Out(who) == s.Out(who))
       case Inject(_) => !ends && t.In(who) == s.In(who) && Carries(s.Out(who), t.Out(who), step)
       case Arrive(_) => !ends && t.In(who) == s.In(who) && Carries(s.Out(who), t.Out(who), step)
       case Forward(_, _) => s.Alive(who) && Sends(s.Out(who), t.Out(who), step, ends) && t.In(who) == s.In(who)
       case _ => s.Alive(who) && Sends(s.Out(who), t.Out(who), step, ends) && Interrupted(s.In(who), t.In(who))
  }

  ghost predicate Next(s: System, t: System) {
    exists who, step, ends :: StepBy(s, t, who, step, ends)
  }

  predicate Fresh(c: Channel) {
    c == Channel(c.input, 0, [], None, false, 0, 0, 0, [], false, false)
  }

  predicate Start(s: System) {
    Fresh(s.ab) && Fresh(s.ba) && s.aliveA && s.aliveB
  }

  // ---- What every step keeps ----

  /** The books of one direction: frames read so far, and what was delivered from them. */
  ghost predicate ChannelSound(c: Channel) {
    && WellFormed(c)
    && c.frames <= |c.log|
    && c.consumed == |Stream(c.log[..c.frames])|
    && CloseSound(c)
    && DeliverySound(c)
  }

  ghost predicate CloseSound(c: Channel)
    requires c.frames <= |c.log|
  {
    if c.closeRead then 0 < c.frames && Closes(c.log[c.frames - 1]) && !HasClose(c.log[..c.frames - 1])
    else !HasClose(c.log[..c.frames])
  }

  ghost predicate DeliverySound(c: Channel)
    requires c.frames <= |c.log|
  {
    if c.writeFailed then c.delivered <= Data(c.log[..c.frames]) && !c.closeRead
    else c.delivered == Data(c.log[..c.frames])
  }

  /** Without tampering the data on the connection is the local input, and Close marks its end. */
  ghost predicate SenderSound(c: Channel, senderAlive: bool) {
    && c.forwarded <= |c.input|
    && (c.torn.Some? ==> !senderAlive)
    && (!c.tampered ==>
          && Data(c.log) == c.input[..c.forwarded]
          && (HasClose(c.log) ==> !senderAlive && c.forwarded == |c.input|))
  }

  ghost predicate DirectionSound(c: Channel, senderAlive: bool, readerAlive: bool) {
    && ChannelSound(c) && SenderSound(c, senderAlive)
    && (c.closeRead || c.writeFailed ==> !readerAlive)
  }

  ghost predicate Sound(s: System) {
    DirectionSound(s.ab, s.aliveA, s.aliveB) && DirectionSound(s.ba, s.aliveB, s.aliveA)
  }

  // ---- Lemmas on logs ----

  lemma Associates(a: seq<bv8>, b: seq<bv8>, c: seq<bv8>)
    ensures a + b + c == a + (b + c)
  {
  }

  lemma ConcatCons(x: seq<bv8>, p: seq<seq<bv8>>)
    ensures Concat([x] + p) == x + Concat(p)
  {
    assert ([x] + p)[1..] == p;
  }

  lemma {:induction false} ConcatAppend(p: seq<seq<bv8>>, q: seq<seq<bv8>>)
    ensures Concat(p + q) == Concat(p) + Concat(q)
  {
    if p == [] {
      assert p + q == q;
    } else {
      var x, rest := p[0], p[1..];
      ConcatAppend(rest, q);
      assert p + q == [x] + (rest + q) by {
        assert p == [x] + rest;
      }
      ConcatCons(x, rest + q);
      Associates(x, Concat(rest), Concat(q));
    }
  }

  lemma ConcatTake(p: seq<seq<bv8>>, k: nat)
    requires k < |p|
    ensures Concat(p[..k + 1]) == Concat(p[..k]) + p[k]
  {
    assert p[..k + 1] == p[..k] + [p[k]];
    ConcatAppend(p[..k], [p[k]]);
    assert [p[k]] == [p[k]] + [];
    ConcatCons(p[k], []);
  }

  lemma ConcatAt(p: seq<seq<bv8>>, k: nat)
    requires k < |p|
    ensures Concat(p) == Concat(p[..k]) + (p[k] + Concat(p[k + 1..]))
  {
    hide Concat;
    var rest := [p[k]] + p[k + 1..];
    ConcatCons(p[k], p[k + 1..]);
    ConcatAppend(p[..k], rest);
    SplitAround(p, k);
  }

  lemma SplitAround(p: seq<seq<bv8>>, k: nat)
    requires k < |p|
    ensures p == p[..k] + ([p[k]] + p[k + 1..])
  {
  }

  lemma {:induction false} DataConcat(x: seq<Wire>, y: seq<Wire>)
    ensures Data(x + y) == if HasClose(x) then Data(x) else Data(x) + Data(y)
  {
    hide FrameOf, DataOf;
    if x == [] {
      assert x + y == y;
    } else {
      assert (x + y)[1..] == x[1..] + y;
      DataConcat(x[1..], y);
      if Closes(x[0]) {
      } else if HasClose(x[1..]) {
        var i :| 0 <= i < |x[1..]| && Closes(x[1..][i]);
        assert x[i + 1] == x[1..][i];
      } else {
        forall i | 0 <= i < |x| ensures !Closes(x[i]) {
          assert i == 0 || x[i] == x[1..][i - 1];
        }
      }
    }
  }

  lemma DataOfOne(f: Wire)
    ensures Data([f]) == DataOf(f)
  {
    assert [f][1..] == [];
  }

  lemma StreamSplit(log: seq<Wire>, k: nat)
    requires k < |log| && AllValid(log)
    ensures Stream(log[..k + 1]) == Stream(log[..k]) + Pieces(log)[k]
    ensures Stream(log) == Stream(log[..k]) + (Pieces(log)[k] + Stream(log[k + 1..]))
  {
    hide Encode, Concat;
    var p := Pieces(log);
    ConcatTake(p, k);
    ConcatAt(p, k);
    assert p[..k] == Pieces(log[..k]) && p[..k + 1] == Pieces(log[..k + 1]) && p[k + 1..] == Pieces(log[k + 1..]);
  }

  lemma StreamAppend(log: seq<Wire>, f: Wire)
    requires AllValid(log) && f.Valid()
    ensures Stream(log + [f]) == Stream(log) + Encode(f)
  {
    StreamSplit(log + [f], |log|);
    assert (log + [f])[..|log| + 1] == log + [f] && (log + [f])[..|log|] == log;
  }

  lemma SplitData(log: seq<Wire>, k: nat)
    requires k < |log|
    ensures Data(log[..k + 1]) == if HasClose(log[..k]) then Data(log[..k]) else Data(log[..k]) + DataOf(log[k])
  {
    assert log[..k + 1] == log[..k] + [log[k]];
    DataConcat(log[..k], [log[k]]);
    DataOfOne(log[k]);
  }

  lemma ExtendClose(log: seq<Wire>, f: Wire)
    ensures HasClose(log + [f]) <==> HasClose(log) || Closes(f)
  {
    if HasClose(log) {
      var i :| 0 <= i < |log| && Closes(log[i]);
      assert (log + [f])[i] == log[i];
    }
    assert (log + [f])[|log|] == f;
  }

  /** A window on the frame f and what follows it decodes only when all of f is in it. */
  lemma WindowOnFrame(f: Wire, after: seq<bv8>, n: nat)
    requires f.Valid() && n <= |Encode(f) + after|
    ensures var (r, rest) := Decode((Encode(f) + after)[..n]);
            r.Ok? ==> r.value == FrameOf(f) && |Encode(f)| <= n && |rest| == n - |Encode(f)|
    ensures |Encode(f)| <= n && |f.payload| <= MAX_FRAME_BYTES ==> Decode((Encode(f) + after)[..n]).0.Ok?
  {
    var window := (Encode(f) + after)[..n];
    if n < |Encode(f)| {
      assert window == Encode(f)[..n];
      DecodeTruncated(f, n);
    } else {
      var rest := after[..n - |Encode(f)|];
      assert window == Encode(f) + rest;
      if |f.payload| > MAX_FRAME_BYTES {
        DecodeOversize(f, rest);
      } else {
        DecodeEncode(f, rest);
      }
    }
  }

  lemma Window(x: seq<bv8>, y: seq<bv8>, z: seq<bv8>, end: nat)
    requires |x| <= end <= |x + (y + z)|
    ensures (x + (y + z))[|x|..end] == (y + z)[..end - |x|]
  {
  }

  /** What is left to read, in front of the reader. */
  lemma Ahead(c: Channel)
    requires ChannelSound(c) && c.frames < |c.log|
    ensures var f := Pieces(c.log)[c.frames];
            var after := Stream(c.log[c.frames + 1..]) + Fragment(c);
            && c.arrived - c.consumed <= |f + after|
            && Bytes(c)[c.consumed..c.arrived] == (f + after)[..c.arrived - c.consumed]
  {
    hide Encode, FrameOf, Classify, CloseSound, DeliverySound, Pieces, Concat;
    var before, f := Stream(c.log[..c.frames]), Pieces(c.log)[c.frames];
    var after, fragment := Stream(c.log[c.frames + 1..]), Fragment(c);
    StreamSplit(c.log, c.frames);
    assert (before + (f + after)) + fragment == before + (f + (after + fragment));
    Window(before, f, after + fragment, c.arrived);
  }

  lemma NothingAhead(c: Channel)
    requires ChannelSound(c) && c.frames == |c.log|
    ensures Decode(Bytes(c)[c.consumed..c.arrived]).0.Err?
  {
    var n := c.arrived - c.consumed;
    assert c.log[..c.frames] == c.log;
    assert Bytes(c)[c.consumed..c.arrived] == Fragment(c)[..n];
    if c.torn.Some? {
      assert Fragment(c)[..n] == Encode(c.torn.value.0)[..n];
      DecodeTruncated(c.torn.value.0, n);
    }
  }

  /** Whatever has arrived, a successful decode is exactly the next logged frame. */
  lemma ReadIsNextFrame(c: Channel)
    requires ChannelSound(c)
    requires Decode(Bytes(c)[c.consumed..c.arrived]).0.Ok?
    ensures c.frames < |c.log|
    ensures var (r, rest) := Decode(Bytes(c)[c.consumed..c.arrived]);
            && r.value == FrameOf(c.log[c.frames])
            && |rest| <= c.arrived
            && c.arrived - |rest| == |Stream(c.log[..c.frames + 1])|
  {
    hide Decode, Encode, FrameOf, Classify, DeliverySound, CloseSound;
    if c.frames == |c.log| {
      NothingAhead(c);
    } else {
      Ahead(c);
      StreamSplit(c.log, c.frames);
      WindowOnFrame(c.log[c.frames], Stream(c.log[c.frames + 1..]) + Fragment(c), c.arrived - c.consumed);
    }
  }

  /** Once a whole frame within the size cap has arrived, the reader is not blocked. */
  lemma ArrivedFrameIsRead(c: Channel)
    requires ChannelSound(c) && c.frames < |c.log| && |c.log[c.frames].payload| <= MAX_FRAME_BYTES
    requires |Stream(c.log[..c.frames + 1])| <= c.arrived
    ensures Decode(Bytes(c)[c.consumed..c.arrived]).0 == Ok(FrameOf(c.log[c.frames]))
  {
    hide Decode, Encode, FrameOf, Classify, Stream, DeliverySound, CloseSound;
    Ahead(c);
    StreamSplit(c.log, c.frames);
    WindowOnFrame(c.log[c.frames], Stream(c.log[c.frames + 1..]) + Fragment(c), c.arrived - c.consumed);
  }

  /** Appending a frame to the log, by whoever. */
  lemma AppendKeeps(c: Channel, d: Channel, f: Wire)
    requires ChannelSound(c) && f.Valid() && c.torn.None?
    requires d == c.(log := c.log + [f], forwarded := d.forwarded, tampered := d.tampered)
    ensures ChannelSound(d)
    ensures Data(d.log) == if HasClose(c.log) then Data(c.log) else Data(c.log) + DataOf(f)
    ensures HasClose(d.log) <==> HasClose(c.log) || Closes(f)
  {
    assert d.log[..c.frames] == c.log[..c.frames];
    assert c.frames > 0 ==> d.log[..c.frames - 1] == c.log[..c.frames - 1];
    StreamAppend(c.log, f);
    DataConcat(c.log, [f]);
    DataOfOne(f);
    ExtendClose(c.log, f);
  }

  /** Consuming the next frame. */
  lemma ConsumeKeeps(c: Channel, d: Channel)
    requires ChannelSound(c) && !c.closeRead && !c.writeFailed && c.frames < |c.log|
    requires d == c.(consumed := |Stream(c.log[..c.frames + 1])|, frames := c.frames + 1,
                     delivered := d.delivered, closeRead := Closes(c.log[c.frames]),
                     writeFailed := d.writeFailed)
    requires d.consumed <= d.arrived
    requires if d.writeFailed then !d.closeRead && d.delivered <= c.delivered + DataOf(c.log[c.frames])
             else d.delivered == c.delivered + DataOf(c.log[c.frames])
    ensures ChannelSound(d)
  {
    hide Encode, Classify, FrameOf, DataOf, Data, Stream, HasClose;
    SplitData(c.log, c.frames);
    assert d.log[..d.frames - 1] == c.log[..c.frames];
    CloseAfter(c.log, c.frames);
  }

  lemma CloseAfter(log: seq<Wire>, k: nat)
    requires k < |log| && !HasClose(log[..k])
    ensures HasClose(log[..k + 1]) <==> Closes(log[k])
  {
    assert log[..k + 1] == log[..k] + [log[k]];
    ExtendClose(log[..k], log[k]);
  }

  // ---- Every step, every run ----

  lemma WrittenFrames(c: Channel, n: nat, key: seq<bv8>)
    requires |key| == 4 && n <= READ_BUFFER && c.forwarded + n <= |c.input|
    ensures Chunk(c, n, key).Valid() && DataOf(Chunk(c, n, key)) == c.input[c.forwarded..c.forwarded + n]
    ensures !Closes(Chunk(c, n, key))
    ensures Written(CLOSE, [], key).Valid() && Closes(Written(CLOSE, [], key))
    ensures DataOf(Written(CLOSE, [], key)) == []
  {
    FinBit(BINARY);
    FinBit(CLOSE);
  }

  lemma ForwardKeeps(c: Channel, d: Channel, n: nat, key: seq<bv8>, readerAlive: bool)
    requires DirectionSound(c, true, readerAlive) && Sends(c, d, Forward(n, key), false)
    ensures DirectionSound(d, true, readerAlive)
  {
    hide Encode, Classify, FrameOf, DataOf, Chunk, Data, Stream, HasClose, CloseSound, DeliverySound;
    WrittenFrames(c, n, key);
    AppendKeeps(c, d, Chunk(c, n, key));
    assert c.input[..d.forwarded] == c.input[..c.forwarded] + c.input[c.forwarded..d.forwarded];
  }

  lemma SendCloseKeeps(c: Channel, d: Channel, key: seq<bv8>, readerAlive: bool)
    requires DirectionSound(c, true, readerAlive) && Sends(c, d, SendClose(key), true)
    ensures DirectionSound(d, false, readerAlive)
  {
    hide Encode, Classify, FrameOf, DataOf, Written, Data, Stream, HasClose, CloseSound, DeliverySound;
    WrittenFrames(c, 0, key);
    AppendKeeps(c, d, Written(CLOSE, [], key));
  }

  /** The writing loop goes on exactly when it forwards. */
  lemma OnlyForwardGoesOn(c: Channel, d: Channel, step: Step, ends: bool)
    requires Sends(c, d, step, ends)
    ensures ends <==> !step.Forward?
  {
  }

  lemma SendsKeeps(c: Channel, d: Channel, step: Step, ends: bool, readerAlive: bool)
    requires DirectionSound(c, true, readerAlive) && Sends(c, d, step, ends)
    ensures DirectionSound(d, !ends, readerAlive)
  {
    hide Encode, Classify, Chunk, Written, Data, Stream, CloseSound, DeliverySound;
    match step
    case Forward(n, key) => ForwardKeeps(c, d, n, key, readerAlive);
    case SendClose(key) => SendCloseKeeps(c, d, key, readerAlive);
    case Tear(frame, cut) => TearKeeps(c, frame, cut);
    case Stop =>
  }

  lemma TearKeeps(c: Channel, frame: Wire, cut: nat)
    requires ChannelSound(c) && c.torn.None? && frame.Valid() && cut < |Encode(frame)|
    ensures ChannelSound(c.(torn := Some((frame, cut))))
  {
    hide Classify, Data, Stream;
  }

  lemma CarriesKeeps(c: Channel, d: Channel, step: Step, senderAlive: bool, readerAlive: bool)
    requires DirectionSound(c, senderAlive, readerAlive) && Carries(c, d, step)
    ensures DirectionSound(d, senderAlive, readerAlive)
  {
    match step
    case Inject(frame) => AppendKeeps(c, d, frame);
    case Arrive(_) =>
  }

  lemma ReadsKeeps(c: Channel, d: Channel, accepted: nat, ends: bool, senderAlive: bool)
    requires DirectionSound(c, senderAlive, true) && Reads(c, d, accepted, ends)
    ensures DirectionSound(d, senderAlive, !ends)
  {
    hide Encode, Classify, FrameOf, Stream, Data, CloseSound, DeliverySound, Decode;
    if Decode(Bytes(c)[c.consumed..c.arrived]).0.Ok? {
      ReadIsNextFrame(c);
      FrameMeans(c.log[c.frames]);
      ConsumeKeeps(c, d);
    }
  }

  lemma AbandonsKeeps(c: Channel, d: Channel, readerAlive: bool)
    requires DirectionSound(c, true, readerAlive) && Abandons(c, d)
    ensures DirectionSound(d, false, readerAlive)
  {
    hide Encode, Classify, Data, Stream, CloseSound, DeliverySound;
    if d != c {
      TearKeeps(c, d.torn.value.0, d.torn.value.1);
    }
  }

  lemma InterruptedKeeps(c: Channel, d: Channel, senderAlive: bool)
    requires DirectionSound(c, senderAlive, true) && Interrupted(c, d)
    ensures DirectionSound(d, senderAlive, false)
  {
    hide Reads, Encode, Classify, Data, Stream, CloseSound, DeliverySound;
    if d != c {
      var accepted :| Reads(c, d, accepted, true);
      ReadsKeeps(c, d, accepted, true, senderAlive);
    }
  }

  lemma StepKeeps(s: System, t: System, who: Side, step: Step, ends: bool)
    requires Sound(s) && StepBy(s, t, who, step, ends)
    ensures Sound(t)
  {
    hide DirectionSound, Reads, Sends, Carries, Abandons, Interrupted;
    var other := who.Peer();
    if step.Inject? || step.Arrive? {
      CarriesKeeps(s.Out(who), t.Out(who), step, s.Alive(who), s.Alive(other));
    } else if step.Read? {
      ReadsKeeps(s.In(who), t.In(who), step.accepted, ends, s.Alive(other));
      if ends {
        AbandonsKeeps(s.Out(who), t.Out(who), s.Alive(other));
      }
    } else {
      SendsKeeps(s.Out(who), t.Out(who), step, ends, s.Alive(other));
      OnlyForwardGoesOn(s.Out(who), t.Out(who), step, ends);
      if !step.Forward? {
        InterruptedKeeps(s.In(who), t.In(who), s.Alive(other));
      }
    }
  }

  /** Close reached while a frame is being written: both happen in one step. */
  lemma CloseCanTear(s: System, who: Side, frame: Wire, cut: nat)
    requires Sound(s) && s.Alive(who) && frame.Valid() && cut < |Encode(frame)|
    requires s.In(who).frames < |s.In(who).log| && Closes(s.In(who).log[s.In(who).frames])
    requires |s.In(who).log[s.In(who).frames].payload| <= MAX_FRAME_BYTES
    requires |Stream(s.In(who).log[..s.In(who).frames + 1])| <= s.In(who).arrived
    ensures exists t :: Next(s, t) && t.Out(who).torn == Some((frame, cut)) && t.In(who).closeRead
  {
    hide Encode, Classify, Stream, FrameOf, Decode, CloseSound, DeliverySound, Data;
    var c, o := s.In(who), s.Out(who);
    ArrivedFrameIsRead(c);
    ReadIsNextFrame(c);
    FrameMeans(c.log[c.frames]);
    var rest := Decode(Bytes(c)[c.consumed..c.arrived]).1;
    var d := c.(consumed := c.arrived - |rest|, frames := c.frames + 1, closeRead := true);
    var u := o.(torn := Some((frame, cut)));
    assert Reads(c, d, 0, true) && Abandons(o, u);
    var t := if who.A? then System(u, d, false, s.aliveB) else System(d, u, s.aliveA, false);
    assert StepBy(s, t, who, Read(0), true);
  }

  lemma StartSound(s: System)
    requires Start(s)
    ensures Sound(s)
  {
    assert s.ab.log[..0] == [] && s.ba.log[..0] == [];
  }

  /** A run: some sequence of steps of either endpoint, in any interleaving. */
  ghost predicate Run(states: seq<System>) {
    && 0 < |states|
    && Start(states[0])
    && forall i :: 0 < i < |states| ==> Next(states[i - 1], states[i])
  }

  lemma {:induction false} RunSound(states: seq<System>, k: nat)
    requires Run(states) && k < |states|
    ensures Sound(states[k])
  {
    if k == 0 {
      StartSound(states[0]);
    } else {
      RunSound(states, k - 1);
      assert Next(states[k - 1], states[k]);
      var who, step, ends :| StepBy(states[k - 1], states[k], who, step, ends);
      StepKeeps(states[k - 1], states[k], who, step, ends);
    }
  }

  /** Of one direction: delivered is a prefix of the data sent before Close, and all of it at Close. */
  lemma DeliveredIsPrefix(c: Channel)
    requires ChannelSound(c)
    ensures c.delivered <= Data(c.log)
    ensures c.closeRead ==> c.delivered == Data(c.log) && HasClose(c.log)
  {
    var k := c.frames;
    assert c.log == c.log[..k] + c.log[k..];
    DataConcat(c.log[..k], c.log[k..]);
    if c.closeRead {
      assert c.log[..k][k - 1] == c.log[k - 1];
    }
  }

  /** What a state promises about the direction c. */
  ghost predicate DeliversFaithfully(c: Channel) {
    && c.delivered <= Data(c.log)
    && (c.closeRead ==> c.delivered == Data(c.log))
    && (!c.tampered ==> c.delivered <= c.input)
    && (!c.tampered && c.closeRead ==> c.delivered == c.input)
  }

  /**
   In every state of every run and in both directions: the bytes delivered locally are a prefix
   of the data payloads sent before the first Close, and equal to all of them once the reader
   reached it. If nobody added data or Close frames, they are a prefix of the sender's local
   bytes, and the whole of them at Close.
   */
  lemma EveryRunDeliversAPrefix(states: seq<System>, k: nat)
    requires Run(states) && k < |states|
    ensures DeliversFaithfully(states[k].ab) && DeliversFaithfully(states[k].ba)
  {
    RunSound(states, k);
    DeliveredIsPrefix(states[k].ab);
    DeliveredIsPrefix(states[k].ba);
  }
}
