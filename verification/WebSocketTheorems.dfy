/** What the WebSocket parser promises about every byte stream, however it arrives. */
module WebSocketTheorems {
  import opened ByteCodec
  import opened Wrappers
  import opened WebSocket

  // --- chunking ---------------------------------------------------------------------

  function Grow(s: State, more: Bytes): State {
    s.(buffer := s.buffer + more)
  }

  lemma LengthIsStable(b: Bytes, more: Bytes)
    requires |b| >= 2 && !LengthOf(b).Short?
    ensures LengthOf(b + more) == LengthOf(b)
  {
    assert |b| >= 4 ==> (b + more)[2..4] == b[2..4];
    assert |b| >= 10 ==> (b + more)[2..10] == b[2..10];
  }

  /** A decision on the bytes at hand is not changed by bytes that arrive later. */
  lemma ReadIsStable(b: Bytes, more: Bytes)
    ensures var r := ReadFrameOf(b);
            && (r.TooLarge? ==> ReadFrameOf(b + more).TooLarge?)
            && (r.Complete? ==> ReadFrameOf(b + more) == Complete(r.frame, r.rest + more))
  {
    hide LengthOf;
    hide ReadPayload;
    if |b| >= 2 {
      match LengthOf(b)
      case Short =>
      case Oversize =>
        LengthIsStable(b, more);
        assert LengthOf(b + more) == Oversize;
      case Length(length, at) =>
        LengthIsStable(b, more);
        PayloadRead(b, at, length);
        PayloadIsStable(b, more, at, length);
    }
  }

  lemma PayloadIsStable(b: Bytes, more: Bytes, at: nat, length: nat)
    requires 2 <= at <= |b|
    ensures var r := ReadPayload(b, at, length);
            r.Complete? ==> ReadPayload(b + more, at, length) == Complete(r.frame, r.rest + more)
  {
    if b[1] >= 0x80 {
      MaskedIsStable(b, more, at, length);
    } else {
      PlainIsStable(b, more, at, length);
    }
    hide ReadPayload;
  }

  lemma MaskedIsStable(b: Bytes, more: Bytes, at: nat, length: nat)
    requires 2 <= at <= |b| && b[1] >= 0x80
    ensures var r := ReadPayload(b, at, length);
            r.Complete? ==> ReadPayload(b + more, at, length) == Complete(r.frame, r.rest + more)
  {
    hide *;
    NeedsMore(b, at, length);
    if at + 4 + length <= |b| {
      var key, covered, tail := b[at..at + 4], b[at + 4..at + 4 + length], b[at + 4 + length..];
      SliceIsStable(b, more, at + 4, at + 4 + length);
      SliceIsStable(b, more, at, at + 4);
      ReadsMasked(b, at, IsFinal(b[0]), OpcodeOf(b[0]), key, covered, tail);
      ReadsMasked(b + more, at, IsFinal(b[0]), OpcodeOf(b[0]), key, covered, tail + more);
    }
  }

  lemma NeedsMore(b: Bytes, at: nat, length: nat)
    requires 2 <= at <= |b| && b[1] >= 0x80
    ensures at + 4 + length > |b| ==> ReadPayload(b, at, length).NeedMore?
  {
    hide Mask;
  }

  lemma PlainIsStable(b: Bytes, more: Bytes, at: nat, length: nat)
    requires 2 <= at <= |b| && b[1] < 0x80
    ensures var r := ReadPayload(b, at, length);
            r.Complete? ==> ReadPayload(b + more, at, length) == Complete(r.frame, r.rest + more)
  {
    hide Mask;
    if at + length <= |b| {
      SliceIsStable(b, more, at, at + length);
    }
  }

  lemma SliceIsStable(b: Bytes, more: Bytes, i: nat, j: nat)
    requires i <= j <= |b|
    ensures (b + more)[i..j] == b[i..j] && (b + more)[j..] == b[j..] + more
  {
  }

  lemma HandleGrows(s: State, f: Frame, more: Bytes)
    requires |f.payload| < Pow256(8)
    ensures Handle(Grow(s, more), f) == Grow(Handle(s, f), more)
  {
    hide Encode;
    hide Concat;
    hide ToBigEndian;
  }

  /** Draining early and again after more bytes is draining once. */
  lemma {:induction false} DrainGrows(s: State, more: Bytes)
    requires !s.closed
    ensures var t := Drain(s);
            Drain(Grow(s, more)) == if t.closed then Grow(t, more) else Drain(Grow(t, more))
    decreases |s.buffer|
  {
    ReadIsStable(s.buffer, more);
    var r := ReadFrameOf(s.buffer);
    hide ReadFrameOf;
    match r
    case NeedMore =>
    case TooLarge =>
      hide Encode;
      hide ToBigEndian;
    case Complete(frame, rest) =>
      FrameFits(s.buffer);
      var u := s.(buffer := rest);
      HandleGrows(u, frame, more);
      assert Grow(s, more).(buffer := rest + more) == Grow(u, more);
      hide Handle;
      if !Handle(u, frame).closed {
        DrainGrows(Handle(u, frame), more);
      }
  }

  lemma {:induction false} DrainSettles(s: State)
    ensures Drain(s).closed || ReadFrameOf(Drain(s).buffer).NeedMore?
    decreases |s.buffer|
  {
    hide ReadFrameOf;
    hide Handle;
    hide CloseWith;
    match ReadFrameOf(s.buffer)
    case NeedMore =>
    case TooLarge =>
      ClosesFor(s, 1009, MESSAGE_TOO_LARGE);
    case Complete(frame, rest) =>
      FrameFits(s.buffer);
      var t := Handle(s.(buffer := rest), frame);
      if !t.closed {
        DrainSettles(t);
      }
  }

  lemma ClosesFor(s: State, code: nat, reason: Bytes)
    requires |reason| < 100
    ensures CloseWith(s, code, reason).closed
  {
  }

  /** Feed chunk after chunk, until there are none left or the connection has closed. */
  function FeedUntilClosed(s: State, chunks: seq<Bytes>): State
    decreases |chunks|
  {
    if chunks == [] || s.closed then s else FeedUntilClosed(OnData(s, chunks[0]), chunks[1..])
  }

  /** Waiting for more bytes. */
  predicate Settled(s: State) {
    !s.closed && ReadFrameOf(s.buffer).NeedMore?
  }

  /** The same connection, apart from unread bytes after a close. */
  predicate SameUpToClose(s: State, t: State) {
    && s.log == t.log && s.closed == t.closed && s.fragments == t.fragments && s.fragmentOpcode == t.fragmentOpcode
    && (!s.closed ==> s == t)
  }

  lemma {:induction false} FeedingIsDraining(s: State, chunks: seq<Bytes>)
    requires Settled(s)
    ensures SameUpToClose(FeedUntilClosed(s, chunks), Drain(Grow(s, Concat(chunks))))
    decreases |chunks|
  {
    hide ReadFrameOf;
    if chunks == [] {
      assert Grow(s, []) == s;
    } else {
      var t := OnData(s, chunks[0]);
      var rest := Concat(chunks[1..]);
      DrainGrows(Grow(s, chunks[0]), rest);
      DrainSettles(Grow(s, chunks[0]));
      assert Grow(Grow(s, chunks[0]), rest) == Grow(s, Concat(chunks)) by {
        assert s.buffer + chunks[0] + rest == s.buffer + (chunks[0] + rest);
      }
      if !t.closed {
        FeedingIsDraining(t, chunks[1..]);
      }
    }
  }

  /**
   * However a byte stream is cut into chunks, the connection sends, emits and closes the
   * same, up to and including the first close.
   */
  lemma ChunkingIsImmaterial(s: State, chunks: seq<Bytes>, chunks': seq<Bytes>)
    requires Settled(s) && Concat(chunks) == Concat(chunks')
    ensures SameUpToClose(FeedUntilClosed(s, chunks), FeedUntilClosed(s, chunks'))
  {
    FeedingIsDraining(s, chunks);
    FeedingIsDraining(s, chunks');
  }

  // --- after a close --------------------------------------------------------------------

  function FeedAll(s: State, chunks: seq<Bytes>): State
    decreases |chunks|
  {
    if chunks == [] then s else FeedAll(OnData(s, chunks[0]), chunks[1..])
  }

  lemma {:induction false} LogOnlyGrows(s: State, chunks: seq<Bytes>)
    ensures FeedUntilClosed(s, chunks).log <= FeedAll(s, chunks).log
    decreases |chunks|
  {
    if chunks != [] {
      LogOnlyGrows(OnData(s, chunks[0]), chunks[1..]);
      if s.closed {
        DrainLog(Grow(s, chunks[0]));
        FeedAllLog(OnData(s, chunks[0]), chunks[1..]);
      }
    }
  }

  lemma {:induction false} FeedAllLog(s: State, chunks: seq<Bytes>)
    ensures s.log <= FeedAll(s, chunks).log
    decreases |chunks|
  {
    if chunks != [] {
      DrainLog(Grow(s, chunks[0]));
      FeedAllLog(OnData(s, chunks[0]), chunks[1..]);
    }
  }

  lemma {:induction false} DrainLog(s: State)
    ensures s.log <= Drain(s).log
    decreases |s.buffer|
  {
    hide ReadFrameOf;
    hide Encode;
    hide ToBigEndian;
    hide Concat;
    if ReadFrameOf(s.buffer).Complete? {
      FrameFits(s.buffer);
      var t := Handle(s.(buffer := ReadFrameOf(s.buffer).rest), ReadFrameOf(s.buffer).frame);
      if !t.closed {
        DrainLog(t);
      }
    }
  }

  /** Two empty binary frames. */
  const TWO_FRAMES: Bytes := [0x82, 0, 0x82, 0]

  /** The claim about chunking has to stop at the close: a closed connection handles one frame per call. */
  lemma ChunkingMattersAfterClose(s: State)
    requires s.closed && s.buffer == []
    ensures FeedAll(s, [TWO_FRAMES]).log == s.log + [Binary([])]
    ensures FeedAll(s, [[0x82, 0], [0x82, 0]]).log == s.log + [Binary([]), Binary([])]
  {
    assert TWO_FRAMES == [0x82, 0] + [0x82, 0];
    assert [0x82, 0] + [] == [0x82, 0];
    ClosedStep(s, [0x82, 0]);
    ClosedStep(s, []);
    var t := OnData(s, [0x82, 0]);
    ClosedStep(t, []);
    hide OnData;
    FeedOne(s, TWO_FRAMES);
    FeedTwo(s, [0x82, 0], [0x82, 0]);
  }

  lemma FeedOne(s: State, a: Bytes)
    ensures FeedAll(s, [a]) == OnData(s, a)
  {
    hide OnData;
  }

  lemma FeedTwo(s: State, a: Bytes, b: Bytes)
    ensures FeedAll(s, [a, b]) == OnData(OnData(s, a), b)
  {
    hide OnData;
    assert [a, b][1..] == [b];
    FeedOne(OnData(s, a), b);
  }

  lemma ReadsEmptyBinary(more: Bytes)
    ensures ReadFrameOf([0x82, 0] + more) == Complete(Frame(true, BINARY, []), more)
  {
    var b := [0x82, 0] + more;
    assert b[2..] == more && b[2..2] == [];
  }

  lemma ClosedStep(s: State, more: Bytes)
    requires s.closed && s.buffer == []
    ensures OnData(s, [0x82, 0] + more) ==
              s.(buffer := more, fragments := [], fragmentOpcode := Some(BINARY), log := s.log + [Binary([])])
  {
    ReadsEmptyBinary(more);
    assert s.buffer + ([0x82, 0] + more) == [0x82, 0] + more;
    hide ReadFrameOf;
    assert Concat([[]]) == [];
  }

  // --- frames round trip ---------------------------------------------------------------------

  lemma MaskingCancels(payload: Bytes, key: Bytes)
    requires |key| == 4
    ensures Mask(Mask(payload, key), key) == payload
  {
    forall i | 0 <= i < |payload|
      ensures Mask(Mask(payload, key), key)[i] == payload[i]
    {
      XorByteInvolution(payload[i], key[i % 4]);
    }
  }

  lemma LengthRoundTrips(first: Byte, length: nat, masked: bool, tail: Bytes)
    requires length < Pow256(8)
    ensures var b := [first] + LengthBytes(length, masked) + tail;
            && |b| >= 2 && b[0] == first && (b[1] >= 0x80 <==> masked)
            && LengthOf(b) == if length > MAX_MESSAGE then Oversize
               else Length(length, 1 + |LengthBytes(length, masked)|)
  {
    if length >= 65536 {
      LongLength(first, length, masked, tail);
    } else if length >= 126 {
      MediumLength(first, length, masked, tail);
    } else {
      ShortLength(first, length, masked, tail);
    }
    hide LengthOf;
    hide LengthBytes;
  }

  lemma ShortLength(first: Byte, length: nat, masked: bool, tail: Bytes)
    requires length < 126 && length < Pow256(8)
    ensures var b := [first] + LengthBytes(length, masked) + tail;
            && |b| >= 2 && b[0] == first && b[1] == (if masked then 0x80 else 0) + length
            && |LengthBytes(length, masked)| == 1 && LengthOf(b) == Length(length, 2)
  {
    hide ToBigEndian;
    hide BigEndian;
  }

  lemma MediumLength(first: Byte, length: nat, masked: bool, tail: Bytes)
    requires 126 <= length < 65536 && length < Pow256(8)
    ensures var b := [first] + LengthBytes(length, masked) + tail;
            && |b| >= 4 && b[0] == first && b[1] == (if masked then 0x80 else 0) + 126
            && |LengthBytes(length, masked)| == 3 && LengthOf(b) == Length(length, 4)
  {
    var bytes := ToBigEndian(length, 2);
    var b := [first] + LengthBytes(length, masked) + tail;
    assert BigEndian(bytes) == length by {
      Pow256Large();
      BigEndianRoundTrip(length, 2);
    }
    hide ToBigEndian;
    hide BigEndian;
    assert b == [first, (if masked then 0x80 else 0) + 126] + bytes + tail;
    assert b[2..4] == bytes;
  }

  lemma LongLength(first: Byte, length: nat, masked: bool, tail: Bytes)
    requires 65536 <= length < Pow256(8)
    ensures var b := [first] + LengthBytes(length, masked) + tail;
            && |b| >= 10 && b[0] == first && b[1] == (if masked then 0x80 else 0) + 127
            && |LengthBytes(length, masked)| == 9
            && LengthOf(b) == if length > MAX_MESSAGE then Oversize else Length(length, 10)
  {
    var bytes := ToBigEndian(length, 8);
    var b := [first] + LengthBytes(length, masked) + tail;
    assert BigEndian(bytes) == length by {
      BigEndianRoundTrip(length, 8);
    }
    hide ToBigEndian;
    hide BigEndian;
    assert b == [first, (if masked then 0x80 else 0) + 127] + bytes + tail;
    assert b[2..10] == bytes;
  }

  lemma KeyAndBody(head: Bytes, key: Key, covered: Bytes, tail: Bytes)
    ensures var b := head + (key + covered) + tail;
            && b[|head|..|head| + 4] == key
            && b[|head| + 4..|head| + 4 + |covered|] == covered
            && b[|head| + 4 + |covered|..] == tail
  {
  }

  lemma FirstByte(first: Byte, fin: bool, opcode: nat)
    requires opcode < 16 && first == (if fin then 0x80 else 0) + opcode
    ensures (IsFinal(first) <==> fin) && OpcodeOf(first) == opcode
  {
  }

  lemma ReadsMasked(b: Bytes, at: nat, fin: bool, opcode: nat, key: Key, covered: Bytes, tail: Bytes)
    requires 2 <= at && at + 4 + |covered| <= |b|
    requires (IsFinal(b[0]) <==> fin) && OpcodeOf(b[0]) == opcode && b[1] >= 0x80
    requires b[at..at + 4] == key && b[at + 4..at + 4 + |covered|] == covered && b[at + 4 + |covered|..] == tail
    ensures ReadPayload(b, at, |covered|) == Complete(Frame(fin, opcode, Mask(covered, key)), tail)
  {
    hide Mask;
    hide IsFinal;
    hide OpcodeOf;
  }

  lemma MaskedRoundTrips(head: Bytes, fin: bool, opcode: nat, body: Bytes, key: Key, tail: Bytes)
    requires opcode < 16 && |head| >= 2 && head[0] == (if fin then 0x80 else 0) + opcode && head[1] >= 0x80
    ensures ReadPayload(head + (key + Mask(body, key)) + tail, |head|, |body|)
            == Complete(Frame(fin, opcode, body), tail)
  {
    MaskingCancels(body, key);
    var covered := Mask(body, key);
    hide *;
    KeyAndBody(head, key, covered, tail);
    FirstByte(head[0], fin, opcode);
    ReadsMasked(head + (key + covered) + tail, |head|, fin, opcode, key, covered, tail);
  }

  lemma PlainRoundTrips(head: Bytes, fin: bool, opcode: nat, body: Bytes, tail: Bytes)
    requires opcode < 16 && |head| >= 2 && head[0] == (if fin then 0x80 else 0) + opcode && head[1] < 0x80
    ensures ReadPayload(head + body + tail, |head|, |body|) == Complete(Frame(fin, opcode, body), tail)
  {
    hide Mask;
    var b := head + body + tail;
    assert b[|head|..|head| + |body|] == body;
    assert b[|head| + |body|..] == tail;
  }

  /**
   * What one side encodes, masked or not, is what the other reads, whatever follows, as
   * long as the payload is at most 8 MiB; anything longer is refused.
   */
  lemma FrameRoundTrips(f: Frame, key: Option<Key>, tail: Bytes)
    requires f.opcode < 16 && |f.payload| < Pow256(8)
    ensures ReadFrameOf(Encode(f, key) + tail) ==
              if |f.payload| > MAX_MESSAGE then TooLarge else Complete(f, tail)
  {
    var first: Byte := (if f.fin then 0x80 else 0) + f.opcode;
    var length := LengthBytes(|f.payload|, key.Some?);
    var body := if key.Some? then key.value + Mask(f.payload, key.value) else f.payload;
    var head := [first] + length;
    LengthRoundTrips(first, |f.payload|, key.Some?, body + tail);
    if key.Some? {
      MaskedRoundTrips(head, f.fin, f.opcode, f.payload, key.value, tail);
    } else {
      PlainRoundTrips(head, f.fin, f.opcode, f.payload, tail);
    }
    WireForm(f, key, tail);
    hide LengthOf;
    hide ReadPayload;
    hide LengthBytes;
    hide Mask;
    hide Encode;
  }

  lemma WireForm(f: Frame, key: Option<Key>, tail: Bytes)
    requires f.opcode < 16 && |f.payload| < Pow256(8)
    ensures var first: Byte := (if f.fin then 0x80 else 0) + f.opcode;
            var length := LengthBytes(|f.payload|, key.Some?);
            var body := if key.Some? then key.value + Mask(f.payload, key.value) else f.payload;
            && Encode(f, key) + tail == [first] + length + (body + tail)
            && Encode(f, key) + tail == [first] + length + body + tail
  {
    hide LengthBytes;
    hide Mask;
  }

  // --- closing ------------------------------------------------------------------------------

  /** A final, unmasked close frame that a peer reads as this status code and reason. */
  ghost predicate ReadsAsClose(bytes: Bytes, code: nat, reason: Bytes) {
    ReadFrameOf(bytes) == Complete(Frame(true, CLOSE, ToBigEndian(code, 2) + reason), [])
  }

  lemma CloseIsReadable(code: nat, reason: Bytes)
    requires |reason| < 100 && |ToBigEndian(code, 2) + reason| < Pow256(8)
    ensures ReadsAsClose(Encode(Frame(true, CLOSE, ToBigEndian(code, 2) + reason), None), code, reason)
  {
    var f := Frame(true, CLOSE, ToBigEndian(code, 2) + reason);
    FrameRoundTrips(f, None, []);
    assert Encode(f, None) + [] == Encode(f, None);
    hide ReadFrameOf;
    hide Encode;
    hide ToBigEndian;
  }

  /** The status with which the connection answers a frame that ends it. */
  function CloseCode(f: Frame): (nat, Bytes) {
    if f.opcode == CLOSE then (1000, []) else (1002, UNSUPPORTED_OPCODE)
  }

  /**
   * A close frame is answered with status 1000, an unknown opcode with 1002, an oversized
   * length with 1009; then the socket ends, and the closing is announced once.
   */
  lemma ClosingHandshake(s: State, f: Frame)
    requires !s.closed && !s.destroyed && |f.payload| < Pow256(8)
    requires f.opcode !in {CONTINUATION, TEXT, BINARY, PING, PONG}
    ensures Handle(s, f).closed
    ensures exists bytes :: Handle(s, f).log == s.log + [Sent(bytes), Ended, Closed]
                            && ReadsAsClose(bytes, CloseCode(f).0, CloseCode(f).1)
  {
    CloseAnnounced(s, CloseCode(f).0, CloseCode(f).1);
    hide ReadsAsClose;
    hide CloseWith;
    hide Send;
  }

  lemma CloseAnnounced(s: State, code: nat, reason: Bytes)
    requires !s.closed && !s.destroyed && |reason| < 100
    ensures CloseWith(s, code, reason).closed
    ensures exists bytes ::
              CloseWith(s, code, reason).log == s.log + [Sent(bytes), Ended, Closed] && ReadsAsClose(bytes, code, reason)
  {
    Pow256Large();
    CloseIsReadable(code, reason);
    var bytes := Encode(Frame(true, CLOSE, ToBigEndian(code, 2) + reason), None);
    assert CloseWith(s, code, reason).log == s.log + [Sent(bytes), Ended, Closed] by {
      hide Encode;
      hide ToBigEndian;
      assert s.log + [Sent(bytes)] + [Ended, Closed] == s.log + [Sent(bytes), Ended, Closed];
    }
    hide ReadsAsClose;
    hide CloseWith;
    hide Encode;
  }

  lemma OversizeIsRefused(s: State)
    requires !s.closed && !s.destroyed && ReadFrameOf(s.buffer).TooLarge?
    ensures exists bytes ::
              Drain(s).log == s.log + [Sent(bytes), Ended, Closed] && ReadsAsClose(bytes, 1009, MESSAGE_TOO_LARGE)
  {
    CloseAnnounced(s, 1009, MESSAGE_TOO_LARGE);
    hide ReadFrameOf;
    hide ReadsAsClose;
    hide CloseWith;
  }

  /** Once closed, nothing more is sent, ended or announced, whatever still arrives. */
  lemma SilentAfterClose(s: State, chunk: Bytes)
    requires s.closed
    ensures OnData(s, chunk).closed
    ensures OnData(s, chunk).log == s.log
            || exists data :: OnData(s, chunk).log in {s.log + [Message(data)], s.log + [Binary(data)]}
  {
    var u := Grow(s, chunk);
    hide ReadFrameOf;
    hide Encode;
    hide ToBigEndian;
    hide Concat;
    if ReadFrameOf(u.buffer).Complete? {
      FrameFits(u.buffer);
    }
  }

  // --- messages round trip ---------------------------------------------------------------------

  /** A control frame between two fragments. */
  datatype Control = Ping(data: Bytes, key: Option<Key>) | Pong(data: Bytes, key: Option<Key>) {
    function Frame(): Frame {
      WebSocket.Frame.Frame(true, if Ping? then PING else PONG, data)
    }
  }

  /** One fragment of a message and the control frames that come before it. */
  datatype Piece = Piece(before: seq<Control>, data: Bytes, key: Option<Key>)

  ghost predicate Sendable(pieces: seq<Piece>) {
    forall p :: p in pieces ==> |p.data| <= MAX_MESSAGE && forall c :: c in p.before ==> |c.data| <= MAX_MESSAGE
  }

  function Controls(cs: seq<Control>): Bytes
    requires forall c :: c in cs ==> |c.data| <= MAX_MESSAGE
  {
    if cs == [] then []
    else
      Pow256Large();
      Encode(cs[0].Frame(), cs[0].key) + Controls(cs[1..])
  }

  /** The pongs that answer the pings among `cs`. */
  function Answers(s: State, cs: seq<Control>): seq<Event>
    requires forall c :: c in cs ==> |c.data| <= MAX_MESSAGE
  {
    if cs == [] then [] else Answer(s, cs[0]) + Answers(s, cs[1..])
  }

  /** The bytes of a text message in fragments, from fragment `i` on. */
  ghost function Transmit(pieces: seq<Piece>, i: nat): Bytes
    requires i <= |pieces| && Sendable(pieces)
    decreases |pieces| - i
  {
    if i == |pieces| then []
    else
      Pow256Large();
      assert pieces[i] in pieces;
      Controls(pieces[i].before)
      + Encode(Frame(i == |pieces| - 1, if i == 0 then TEXT else CONTINUATION, pieces[i].data), pieces[i].key)
      + Transmit(pieces, i + 1)
  }

  ghost function AllAnswers(s: State, pieces: seq<Piece>, i: nat): seq<Event>
    requires i <= |pieces| && Sendable(pieces)
    decreases |pieces| - i
  {
    if i == |pieces| then []
    else
      assert pieces[i] in pieces;
      Answers(s, pieces[i].before) + AllAnswers(s, pieces, i + 1)
  }

  function DataOf(pieces: seq<Piece>, i: nat): seq<Bytes>
    requires i <= |pieces|
    decreases i
  {
    if i == 0 then [] else DataOf(pieces, i - 1) + [pieces[i - 1].data]
  }

  /** One encoded frame at the front of the buffer is handled, and the rest drained after it. */
  lemma DrainFront(s: State, f: Frame, key: Option<Key>, rest: Bytes)
    requires f.opcode < 16 && |f.payload| <= MAX_MESSAGE < Pow256(8)
    requires s.buffer == Encode(f, key) + rest
    ensures Drain(s) == var t := Handle(s.(buffer := rest), f); if t.closed then t else Drain(t)
  {
    FrameRoundTrips(f, key, rest);
    hide ReadFrameOf;
    hide Handle;
    hide Encode;
  }

  lemma {:induction false} DrainControls(s: State, cs: seq<Control>, rest: Bytes)
    requires !s.closed && forall c :: c in cs ==> |c.data| <= MAX_MESSAGE
    requires s.buffer == Controls(cs) + rest
    ensures Drain(s) == Drain(s.(buffer := rest, log := s.log + Answers(s, cs)))
    decreases |cs|
  {
    Pow256Large();
    if cs == [] {
      assert Controls(cs) + rest == rest && s.log + [] == s.log;
    } else {
      var c := cs[0];
      var next := Controls(cs[1..]) + rest;
      assert s.buffer == Encode(c.Frame(), c.key) + next by {
        hide Encode;
        assert Controls(cs) == Encode(c.Frame(), c.key) + Controls(cs[1..]);
      }
      DrainFront(s, c.Frame(), c.key, next);
      ControlStep(s.(buffer := next), c);
      assert Answer(s.(buffer := next), c) == Answer(s, c);
      hide *;
      var t := s.(buffer := next, log := s.log + Answer(s, c));
      AnswersFromNext(s, t, cs);
      DrainControls(t, cs[1..], rest);
    }
  }

  /** What one control frame adds to the log. */
  function Answer(s: State, c: Control): seq<Event>
    requires |c.data| <= MAX_MESSAGE
  {
    Pow256Large();
    if c.Ping? && !s.destroyed then [Sent(Encode(Frame(true, PONG, c.data), None))] else []
  }

  lemma ControlStep(s: State, c: Control)
    requires !s.closed && |c.data| <= MAX_MESSAGE < Pow256(8)
    ensures Handle(s, c.Frame()) == s.(log := s.log + Answer(s, c))
  {
    hide Encode;
    assert s.log + [] == s.log;
  }

  lemma AnswersFromNext(s: State, t: State, cs: seq<Control>)
    requires cs != [] && forall c :: c in cs ==> |c.data| <= MAX_MESSAGE
    requires t.destroyed == s.destroyed && t.log == s.log + Answer(s, cs[0])
    ensures t.log + Answers(t, cs[1..]) == s.log + Answers(s, cs)
  {
    hide Answer;
    SameAnswers(s, t, cs[1..]);
  }

  lemma {:induction false} SameAnswers(s: State, t: State, cs: seq<Control>)
    requires s.destroyed == t.destroyed && forall c :: c in cs ==> |c.data| <= MAX_MESSAGE
    ensures Answers(s, cs) == Answers(t, cs)
    decreases |cs|
  {
    hide Encode;
    if cs != [] {
      SameAnswers(s, t, cs[1..]);
    }
  }

  /** The frame that carries piece `i`. */
  function PieceFrame(pieces: seq<Piece>, i: nat): Frame
    requires i < |pieces|
  {
    Frame(i == |pieces| - 1, if i == 0 then TEXT else CONTINUATION, pieces[i].data)
  }

  /** The connection has taken in the pieces before `i`. */
  predicate Midway(s: State, pieces: seq<Piece>, i: nat)
    requires i <= |pieces|
  {
    !s.closed && (i > 0 ==> s.fragments == DataOf(pieces, i) && s.fragmentOpcode == Some(TEXT))
  }

  /** After a whole text message. */
  function Received(s: State, rest: Bytes, answers: seq<Event>, message: Bytes): State {
    s.(buffer := rest, fragments := [], fragmentOpcode := Some(TEXT), log := s.log + answers + [Message(message)])
  }

  lemma FragmentHandled(s: State, pieces: seq<Piece>, i: nat)
    requires i < |pieces| && Midway(s, pieces, i) && |pieces[i].data| < Pow256(8)
    ensures var t := Handle(s, PieceFrame(pieces, i));
            if i == |pieces| - 1 then t == Received(s, s.buffer, [], Concat(DataOf(pieces, |pieces|)))
            else t == s.(fragments := DataOf(pieces, i + 1), fragmentOpcode := Some(TEXT))
  {
    hide Concat;
    assert DataOf(pieces, i + 1) == DataOf(pieces, i) + [pieces[i].data];
    if i == 0 {
      assert DataOf(pieces, 1) == [pieces[0].data];
    }
    assert s.log + [] == s.log;
  }

  lemma TransmitParts(pieces: seq<Piece>, i: nat, rest: Bytes)
    requires i < |pieces| && Sendable(pieces) && MAX_MESSAGE < Pow256(8)
    ensures pieces[i] in pieces && |pieces[i].data| <= MAX_MESSAGE
    ensures Transmit(pieces, i) + rest
         == Controls(pieces[i].before)
           + (Encode(PieceFrame(pieces, i), pieces[i].key) + (Transmit(pieces, i + 1) + rest))
  {
    hide Encode;
    hide Controls;
    assert pieces[i] in pieces;
    var a, b, c := Controls(pieces[i].before), Encode(PieceFrame(pieces, i), pieces[i].key), Transmit(pieces, i + 1);
    assert Transmit(pieces, i) == a + b + c;
    assert a + b + c + rest == a + (b + (c + rest));
  }

  /** The control frames before piece `i`, then the piece itself. */
  lemma DrainPiece(s: State, pieces: seq<Piece>, i: nat, rest: Bytes)
    requires i < |pieces| && Sendable(pieces) && Midway(s, pieces, i) && pieces[i] in pieces
    requires s.buffer == Transmit(pieces, i) + rest
    ensures var u := s.(buffer := Transmit(pieces, i + 1) + rest, log := s.log + Answers(s, pieces[i].before));
            Drain(s) ==
              if i == |pieces| - 1 then Drain(Received(u, rest, [], Concat(DataOf(pieces, |pieces|))))
              else Drain(u.(fragments := DataOf(pieces, i + 1), fragmentOpcode := Some(TEXT)))
  {
    Pow256Large();
    TransmitParts(pieces, i, rest);
    var next := Transmit(pieces, i + 1) + rest;
    var u := s.(buffer := next, log := s.log + Answers(s, pieces[i].before));
    var frame, key := PieceFrame(pieces, i), pieces[i].key;
    var v := u.(buffer := Encode(frame, key) + next);
    DrainControls(s, pieces[i].before, Encode(frame, key) + next);
    DrainFront(v, frame, key, next);
    assert v.(buffer := next) == u;
    assert Midway(u, pieces, i);
    FragmentHandled(u, pieces, i);
    if i == |pieces| - 1 {
      assert next == rest;
    }
    hide *;
  }

  /**
   * A text message in any number of fragments, masked or not, with pings and pongs in
   * between, is emitted once, as the concatenation of its fragments, and every ping is
   * answered with its own payload before that.
   */
  lemma {:induction false} DrainMessage(s: State, pieces: seq<Piece>, i: nat, rest: Bytes)
    requires i < |pieces| && Sendable(pieces) && Midway(s, pieces, i)
    requires s.buffer == Transmit(pieces, i) + rest
    ensures Drain(s) == Drain(Received(s, rest, AllAnswers(s, pieces, i), Concat(DataOf(pieces, |pieces|))))
    decreases |pieces| - i
  {
    assert pieces[i] in pieces;
    DrainPiece(s, pieces, i, rest);
    var u := s.(buffer := Transmit(pieces, i + 1) + rest, log := s.log + Answers(s, pieces[i].before));
    var message := Concat(DataOf(pieces, |pieces|));
    hide *;
    if i == |pieces| - 1 {
      LastReceived(s, u, pieces, i, rest, message);
    } else {
      var v := u.(fragments := DataOf(pieces, i + 1), fragmentOpcode := Some(TEXT));
      NowMidway(s, v, pieces, i);
      DrainMessage(v, pieces, i + 1, rest);
      LaterReceived(s, v, pieces, i, rest, message);
    }
  }

  lemma NowMidway(s: State, v: State, pieces: seq<Piece>, i: nat)
    requires i < |pieces| && Midway(s, pieces, i) && v.closed == s.closed
    requires v.fragments == DataOf(pieces, i + 1) && v.fragmentOpcode == Some(TEXT)
    ensures Midway(v, pieces, i + 1)
  {
  }

  lemma LastReceived(s: State, u: State, pieces: seq<Piece>, i: nat, rest: Bytes, message: Bytes)
    requires i + 1 == |pieces| && Sendable(pieces) && pieces[i] in pieces
    requires u == s.(buffer := u.buffer, log := s.log + Answers(s, pieces[i].before))
    ensures Received(u, rest, [], message) == Received(s, rest, AllAnswers(s, pieces, i), message)
  {
    hide Answers;
    assert AllAnswers(s, pieces, i) == Answers(s, pieces[i].before);
    assert u.log + [] == u.log;
  }

  lemma LaterReceived(s: State, v: State, pieces: seq<Piece>, i: nat, rest: Bytes, message: Bytes)
    requires i + 1 < |pieces| && Sendable(pieces) && pieces[i] in pieces
    requires v.closed == s.closed && v.destroyed == s.destroyed && v.log == s.log + Answers(s, pieces[i].before)
    ensures Received(v, rest, AllAnswers(v, pieces, i + 1), message)
            == Received(s, rest, AllAnswers(s, pieces, i), message)
  {
    SameAllAnswers(s, v, pieces, i + 1);
    hide Answers;
    var a, b := Answers(s, pieces[i].before), AllAnswers(s, pieces, i + 1);
    assert s.log + a + b == s.log + (a + b);
  }

  lemma {:induction false} SameAllAnswers(s: State, t: State, pieces: seq<Piece>, i: nat)
    requires s.destroyed == t.destroyed && i <= |pieces| && Sendable(pieces)
    ensures AllAnswers(s, pieces, i) == AllAnswers(t, pieces, i)
    decreases |pieces| - i
  {
    hide Answers;
    if i < |pieces| {
      assert pieces[i] in pieces;
      SameAnswers(s, t, pieces[i].before);
      SameAllAnswers(s, t, pieces, i + 1);
    }
  }

  /** The same, for bytes that arrive in any chunks on an open connection that has read everything so far. */
  lemma MessageDelivered(s: State, pieces: seq<Piece>, chunks: seq<Bytes>)
    requires !s.closed && s.buffer == [] && pieces != [] && Sendable(pieces)
    requires Concat(chunks) == Transmit(pieces, 0)
    ensures FeedUntilClosed(s, chunks)
         == Received(s, [], AllAnswers(s, pieces, 0), Concat(DataOf(pieces, |pieces|)))
  {
    var t := Grow(s, Concat(chunks));
    assert t.buffer == Transmit(pieces, 0) + [];
    assert Settled(s);
    FeedingIsDraining(s, chunks);
    DrainMessage(t, pieces, 0, []);
    SameAllAnswers(s, t, pieces, 0);
    var r := Received(t, [], AllAnswers(t, pieces, 0), Concat(DataOf(pieces, |pieces|)));
    assert Drain(r) == r by {
      hide Concat;
      hide Transmit;
    }
    hide *;
    assert SameUpToClose(FeedUntilClosed(s, chunks), r);
    SameWhileOpen(FeedUntilClosed(s, chunks), r);
  }

  lemma SameWhileOpen(s: State, t: State)
    requires SameUpToClose(s, t) && !t.closed
    ensures s == t
  {
  }
}
