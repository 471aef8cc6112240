/**
 * The emulator's WebSocket connection: an incremental parser of frames as laid out in
 * sections 5.2 to 5.4 of RFC 6455.
 */
module WebSocket {
  import opened ByteCodec
  import opened Wrappers

  const CONTINUATION := 0x0
  const TEXT := 0x1
  const BINARY := 0x2
  const CLOSE := 0x8
  const PING := 0x9
  const PONG := 0xa

  const MAX_MESSAGE := 8 * 1024 * 1024

  datatype Frame = Frame(fin: bool, opcode: nat, payload: Bytes)

  /** What the connection does to its surroundings, in order. */
  datatype Event = Sent(bytes: Bytes) | Message(data: Bytes) | Binary(data: Bytes) | Ended | Closed

  // --- the wire format ---------------------------------------------------------------

  function Mask(payload: Bytes, key: Bytes): (r: Bytes)
    requires |key| == 4
    ensures |r| == |payload|
  {
    seq(|payload|, i requires 0 <= i < |payload| => XorByte(payload[i], key[i % 4]))
  }

  type Key = k: Bytes | |k| == 4 witness [0, 0, 0, 0]

  function LengthBytes(length: nat, masked: bool): (b: Bytes)
    requires length < Pow256(8)
  {
    var bit: nat := if masked then 0x80 else 0;
    if length < 126 then [bit + length]
    else if length < 65536 then [bit + 126] + ToBigEndian(length, 2)
    else [bit + 127] + ToBigEndian(length, 8)
  }

  /** A frame as a peer puts it on the wire, masked or not. */
  function Encode(f: Frame, key: Option<Key>): Bytes
    requires f.opcode < 16 && |f.payload| < Pow256(8)
  {
    [(if f.fin then 0x80 else 0) + f.opcode] + LengthBytes(|f.payload|, key.Some?)
    + if key.Some? then key.value + Mask(f.payload, key.value) else f.payload
  }

  // --- reading one frame --------------------------------------------------------------

  datatype Length = Short | Oversize | Length(length: nat, offset: nat)

  /** The payload length and where the header goes on after it. */
  function LengthOf(b: Bytes): (r: Length)
    requires |b| >= 2
    ensures r.Length? ==> 2 <= r.offset <= |b|
  {
    var length := b[1] % 0x80;
    if length == 126 then
      if |b| < 4 then Short else Length(BigEndian(b[2..4]), 4)
    else if length == 127 then
      if |b| < 10 then Short
      else if BigEndian(b[2..10]) > MAX_MESSAGE then Oversize
      else Length(BigEndian(b[2..10]), 10)
    else Length(length, 2)
  }

  datatype Read = NeedMore | TooLarge | Complete(frame: Frame, rest: Bytes)

  predicate IsFinal(first: Byte) {
    first >= 0x80
  }

  function OpcodeOf(first: Byte): nat {
    first % 0x10
  }

  /** The masking key, if there is one, and the payload, from `at` on. */
  function ReadPayload(b: Bytes, at: nat, length: nat): (r: Read)
    requires 2 <= at <= |b|
    ensures r.Complete? ==> |r.rest| < |b|
  {
    var fin, opcode, masked := IsFinal(b[0]), OpcodeOf(b[0]), b[1] >= 0x80;
    var offset := if masked then at + 4 else at;
    if |b| < offset || |b| < offset + length then NeedMore
    else
      var payload := b[offset..offset + length];
      Complete(Frame(fin, opcode, if masked then Mask(payload, b[at..at + 4]) else payload), b[offset + length..])
  }

  lemma PayloadRead(b: Bytes, at: nat, length: nat)
    requires 2 <= at <= |b|
    ensures !ReadPayload(b, at, length).TooLarge?
  {
  }

  function ReadFrameOf(b: Bytes): (r: Read)
    ensures r.Complete? ==> |r.rest| < |b|
  {
    if |b| < 2 then NeedMore
    else
      match LengthOf(b)
      case Short => NeedMore
      case Oversize => TooLarge
      case Length(length, at) => ReadPayload(b, at, length)
  }

  // --- the connection as a state machine ---------------------------------------------

  datatype State = State(
    buffer: Bytes, fragments: seq<Bytes>, fragmentOpcode: Option<nat>, closed: bool, destroyed: bool, log: seq<Event>)

  function Concat(parts: seq<Bytes>): Bytes {
    if parts == [] then [] else parts[0] + Concat(parts[1..])
  }

  function Send(s: State, opcode: nat, payload: Bytes): State
    requires opcode < 16 && |payload| < Pow256(8)
  {
    if s.closed || s.destroyed then s
    else s.(log := s.log + [Sent(Encode(Frame(true, opcode, payload), None))])
  }

  /** A close frame's payload: the status code, then the reason. */
  function CloseWith(s: State, code: nat, reason: Bytes): State
    requires |reason| < 100
  {
    if s.closed then s
    else
      assert |ToBigEndian(code, 2) + reason| < Pow256(8) by { Pow256Large(); }
      var t := Send(s, CLOSE, ToBigEndian(code, 2) + reason);
      t.(closed := true, log := t.log + [Ended, Closed])
  }

  /** The peer went away. */
  function Dropped(s: State): State {
    if s.closed then s else s.(closed := true, log := s.log + [Closed])
  }

  lemma Pow256Large()
    ensures Pow256(2) == 65536 && Pow256(8) > MAX_MESSAGE && Pow256(8) > 65536
  {
    assert Pow256(4) == 65536 * 65536;
    assert Pow256(8) == 0x100 * (0x100 * (0x100 * (0x100 * Pow256(4))));
  }

  /** The ASCII reasons the connection closes with. */
  const MESSAGE_TOO_LARGE: Bytes := [109, 101, 115, 115, 97, 103, 101, 32, 116, 111, 111, 32, 108, 97, 114, 103, 101]
  const UNSUPPORTED_OPCODE: Bytes :=
    [117, 110, 115, 117, 112, 112, 111, 114, 116, 101, 100, 32, 111, 112, 99, 111, 100, 101]

  function Handle(s: State, f: Frame): (t: State)
    requires |f.payload| < Pow256(8)
    ensures t.buffer == s.buffer && t.destroyed == s.destroyed
  {
    if f.opcode == PING then Send(s, PONG, f.payload)
    else if f.opcode == PONG then s
    else if f.opcode == CLOSE then CloseWith(s, 1000, [])
    else if f.opcode == CONTINUATION then Deliver(s.(fragments := s.fragments + [f.payload]), f.fin)
    else if f.opcode == TEXT || f.opcode == BINARY then
      Deliver(s.(fragments := [f.payload], fragmentOpcode := Some(f.opcode)), f.fin)
    else CloseWith(s, 1002, UNSUPPORTED_OPCODE)
  }

  /** After a data frame: a final one completes the message. */
  function Deliver(s: State, fin: bool): State {
    if !fin then s
    else
      var message := Concat(s.fragments);
      s.(fragments := [], log := s.log + [if s.fragmentOpcode == Some(TEXT) then Message(message) else Binary(message)])
  }

  lemma FrameFits(b: Bytes)
    requires ReadFrameOf(b).Complete?
    ensures |ReadFrameOf(b).frame.payload| <= MAX_MESSAGE < Pow256(8)
  {
    Pow256Large();
    if b[1] % 0x80 == 126 {
      assert b[2..4][..1] == [b[2]];
      assert BigEndian(b[2..4]) == 0x100 * BigEndian([b[2]]) + b[3];
    }
  }

  /** Handle complete frames until there is none left, or until one closes the connection. */
  function Drain(s: State): (t: State)
    decreases |s.buffer|
  {
    match ReadFrameOf(s.buffer)
    case NeedMore => s
    case TooLarge => CloseWith(s, 1009, MESSAGE_TOO_LARGE)
    case Complete(frame, rest) =>
      FrameFits(s.buffer);
      var t := Handle(s.(buffer := rest), frame);
      if t.closed then t else Drain(t)
  }

  function OnData(s: State, chunk: Bytes): State {
    Drain(s.(buffer := s.buffer + chunk))
  }

  // --- the connection object ------------------------------------------------------------

  class WebSocketConnection {
    var buffer: Bytes
    var fragments: seq<Bytes>
    var fragmentOpcode: Option<nat>
    var closed: bool
    var destroyed: bool
    /** Socket writes and emitted events, oldest first. */
    var log: seq<Event>

    function View(): State
      reads this
    {
      State(buffer, fragments, fragmentOpcode, closed, destroyed, log)
    }

    constructor ()
      ensures View() == State([], [], None, false, false, [])
    {
      buffer, fragments, fragmentOpcode, closed, destroyed, log := [], [], None, false, false, [];
    }

    method OnDataReceived(chunk: Bytes)
      modifies this
      ensures View() == OnData(old(View()), chunk)
    {
      buffer := if |buffer| == 0 then chunk else buffer + chunk;
      assert old(buffer) == [] ==> old(buffer) + chunk == chunk;
      ghost var goal := Drain(View());
      while true
        invariant Drain(View()) == goal
        decreases |buffer|
      {
        ghost var before := View();
        var frame := ReadFrame();
        if frame.None? {
          return;
        }
        FrameFits(before.buffer);
        HandleFrame(frame.value);
        if closed {
          return;
        }
      }
    }

    /** Pull one complete frame out of the buffer; an oversized one closes the connection. */
    method ReadFrame() returns (frame: Option<Frame>)
      modifies this
      ensures match ReadFrameOf(old(buffer))
              case NeedMore => frame == None && View() == old(View())
              case TooLarge => frame == None && View() == CloseWith(old(View()), 1009, MESSAGE_TOO_LARGE)
              case Complete(f, rest) => frame == Some(f) && View() == old(View()).(buffer := rest)
    {
      hide ReadPayload;
      if |buffer| < 2 {
        return None;
      }
      var length: nat, offset: nat := buffer[1] % 0x80, 2;
      if length == 126 {
        if |buffer| < offset + 2 {
          return None;
        }
        length := BigEndian(buffer[2..4]);
        offset := offset + 2;
      } else if length == 127 {
        if |buffer| < offset + 8 {
          return None;
        }
        var big := BigEndian(buffer[2..10]);
        if big > MAX_MESSAGE {
          Close(1009, MESSAGE_TOO_LARGE);
          return None;
        }
        length := big;
        offset := offset + 8;
      }
      PayloadRead(buffer, offset, length);
      frame := TakePayload(offset, length);
    }

    /** The rest of readFrame, once the length is known. */
    method TakePayload(at: nat, length: nat) returns (frame: Option<Frame>)
      requires 2 <= at <= |buffer|
      modifies this
      ensures match ReadPayload(old(buffer), at, length)
              case Complete(f, rest) => frame == Some(f) && View() == old(View()).(buffer := rest)
              case _ => frame == None && View() == old(View())
    {
      hide Mask;
      hide IsFinal;
      hide OpcodeOf;
      var fin, opcode, masked := IsFinal(buffer[0]), OpcodeOf(buffer[0]), buffer[1] >= 0x80;
      var offset := at;
      var mask: Bytes := [];
      if masked {
        if |buffer| < offset + 4 {
          return None;
        }
        mask := buffer[offset..offset + 4];
        offset := offset + 4;
      }
      if |buffer| < offset + length {
        return None;
      }
      var payload := CopyPayload(buffer[offset..offset + length], masked, mask);
      frame := Some(Frame(fin, opcode, payload));
      buffer := buffer[offset + length..];
    }

    method HandleFrame(frame: Frame)
      requires |frame.payload| < Pow256(8)
      modifies this
      ensures View() == Handle(old(View()), frame)
    {
      if frame.opcode == PING {
        SendFrame(PONG, frame.payload);
        return;
      } else if frame.opcode == PONG {
        return;
      } else if frame.opcode == CLOSE {
        Close(1000, []);
        return;
      } else if frame.opcode == CONTINUATION {
        fragments := fragments + [frame.payload];
      } else if frame.opcode == TEXT || frame.opcode == BINARY {
        fragments := [frame.payload];
        fragmentOpcode := Some(frame.opcode);
      } else {
        Close(1002, UNSUPPORTED_OPCODE);
        return;
      }
      if !frame.fin {
        return;
      }
      var message := Concat(fragments);
      fragments := [];
      log := log + [if fragmentOpcode == Some(TEXT) then Message(message) else Binary(message)];
    }

    /** Always a single, final, unmasked frame. */
    method SendFrame(opcode: nat, payload: Bytes)
      requires opcode < 16 && |payload| < Pow256(8)
      modifies this
      ensures View() == Send(old(View()), opcode, payload)
    {
      if closed || destroyed {
        return;
      }
      var length := |payload|;
      var header: Bytes;
      if length < 126 {
        header := [0, length];
      } else if length < 65536 {
        header := [0, 126] + ToBigEndian(length, 2);
      } else {
        header := [0, 127] + ToBigEndian(length, 8);
      }
      header := header[0 := 0x80 + opcode];
      assert header == [0x80 + opcode] + LengthBytes(length, false);
      log := log + [Sent(header + payload)];
    }

    method Close(code: nat, reason: Bytes)
      requires |reason| < 100
      modifies this
      ensures View() == CloseWith(old(View()), code, reason)
    {
      if closed {
        return;
      }
      var payload := ToBigEndian(code, 2) + reason;
      Pow256Large();
      SendFrame(CLOSE, payload);
      closed := true;
      log := log + [Ended, Closed];
    }

    /** The socket has closed or failed. */
    method OnClose()
      modifies this
      ensures View() == Dropped(old(View()))
    {
      if closed {
        return;
      }
      closed := true;
      log := log + [Closed];
    }
  }

  /** `Buffer.from(bytes)` */
  method Copy(bytes: Bytes) returns (a: array<Byte>)
    ensures fresh(a) && a[..] == bytes
  {
    a := new Byte[|bytes|](i requires 0 <= i < |bytes| => bytes[i]);
  }

  method CopyPayload(bytes: Bytes, masked: bool, mask: Bytes) returns (r: Bytes)
    requires masked ==> |mask| == 4
    ensures r == if masked then Mask(bytes, mask) else bytes
  {
    var payload := Copy(bytes);
    if masked {
      Unmask(payload, mask);
    }
    r := payload[..];
  }

  /** `payload[i] ^= mask[i % 4]`, in place. */
  method Unmask(payload: array<Byte>, mask: Bytes)
    requires |mask| == 4
    modifies payload
    ensures payload[..] == Mask(old(payload[..]), mask)
  {
    for i := 0 to payload.Length
      invariant forall k :: 0 <= k < i ==> payload[k] == XorByte(old(payload[k]), mask[k % 4])
      invariant forall k :: i <= k < payload.Length ==> payload[k] == old(payload[k])
    {
      payload[i] := XorByte(payload[i], mask[i % 4]);
    }
  }
}
