/** MIN layer 1, receiving side: the byte-driven state machine, the round trip from the
    transmitter, and recovery after noise. */
module MinReceiver {
  import opened Bytes
  import opened MinWire
  import Fletcher

  datatype Phase =
    | SearchingForSof
    | ReceivingId
    | ReceivingControl
    | ReceivingPayload
    | ReceivingChecksumHigh
    | ReceivingChecksumLow
    | ReceivingEof

  type FrameBuffer = s: seq<byte> | |s| == MAX_PAYLOAD witness seq(MAX_PAYLOAD, _ => 0)

  /** What the callback is handed: the control byte says how much of `buf` is meant. */
  datatype Delivery = Delivery(id: byte, control: byte, buf: FrameBuffer)

  datatype Rx = Rx(
    phase: Phase,
    headerBytesSeen: nat,
    sums: Fletcher.Sums,
    checksum: word,
    payloadBytes: nat,
    id: byte,
    length: nat,
    control: byte,
    buf: FrameBuffer)

  /** What every received byte keeps. */
  predicate Inv(s: Rx) {
    && s.headerBytesSeen <= 2
    && (s.phase == ReceivingControl ==> s.payloadBytes == 0)
    && (s.phase == ReceivingPayload ==> s.length >= 1 && s.payloadBytes + s.length <= MAX_PAYLOAD)
    && (s.phase == ReceivingChecksumLow ==> s.checksum % 0x100 == 0)
  }

  /** The part of the machine that depends on the phase. */
  function Accept(s: Rx, b: byte): (r: Rx)
    requires Inv(s)
    ensures Inv(r) && r.headerBytesSeen == s.headerBytesSeen
  {
    match s.phase
    case SearchingForSof => s
    case ReceivingId =>
      s.(id := b, payloadBytes := 0, sums := Fletcher.Step(Fletcher.INITIAL, b), phase := ReceivingControl)
    case ReceivingControl =>
      s.(length := FrameLength(b), control := b, sums := Fletcher.Step(s.sums, b),
         phase := if FrameLength(b) > 0 then ReceivingPayload else ReceivingChecksumHigh)
    case ReceivingPayload =>
      s.(buf := s.buf[s.payloadBytes := b], payloadBytes := s.payloadBytes + 1,
         sums := Fletcher.Step(s.sums, b), length := s.length - 1,
         phase := if s.length == 1 then ReceivingChecksumHigh else ReceivingPayload)
    case ReceivingChecksumHigh =>
      s.(checksum := b * 0x100, phase := ReceivingChecksumLow)
    case ReceivingChecksumLow =>
      var f := Fletcher.Finalize(s.sums);
      s.(checksum := s.checksum + b, sums := f,
         phase := if s.checksum + b == FinalChecksum(f) then ReceivingEof else SearchingForSof)
    case ReceivingEof => s.(phase := SearchingForSof)
  }

  function FinalChecksum(f: Fletcher.Sums): word {
    Fletcher.High(f) * 0x100 + Fletcher.Low(f)
  }

  predicate Delivers(s: Rx, b: byte) {
    s.phase == ReceivingEof && b == EOF_BYTE
  }

  function DeliveryOf(s: Rx): Delivery {
    Delivery(s.id, s.control, s.buf)
  }

  /** Throughout, the payload index stays inside the 15-byte buffer. */
  function Step(s: Rx, b: byte): (r: Rx)
    requires Inv(s)
    ensures Inv(r)
  {
    if s.headerBytesSeen == 2 then
      s.(headerBytesSeen := 0,
         phase := if b == HEADER_BYTE then ReceivingId else if b == STUFF_BYTE then s.phase else SearchingForSof)
    else
      Accept(s.(headerBytesSeen := if b == HEADER_BYTE then s.headerBytesSeen + 1 else 0), b)
  }

  function Output(s: Rx, b: byte): seq<Delivery> {
    if s.headerBytesSeen != 2 && Delivers(s, b) then [DeliveryOf(s)] else []
  }

  function Run(s: Rx, bytes: seq<byte>): (r: Rx)
    requires Inv(s)
    ensures Inv(r)
    decreases bytes
  {
    if bytes == [] then s else
    Run(Step(s, bytes[0]), bytes[1..])
  }

  function Deliveries(s: Rx, bytes: seq<byte>): seq<Delivery>
    requires Inv(s)
    decreases bytes
  {
    if bytes == [] then [] else
    Output(s, bytes[0]) + Deliveries(Step(s, bytes[0]), bytes[1..])
  }

  lemma {:induction false} RunAppend(s: Rx, x: seq<byte>, y: seq<byte>)
    requires Inv(s)
    ensures Run(s, x + y) == Run(Run(s, x), y)
    ensures Deliveries(s, x + y) == Deliveries(s, x) + Deliveries(Run(s, x), y)
    decreases x
  {
    if x == [] {
      assert x + y == y;
    } else {
      assert (x + y)[1..] == x[1..] + y;
      RunAppend(Step(s, x[0]), x[1..], y);
    }
  }

  // ----- Destuffing

  /** Feeding bytes to the phases directly, without looking for headers. */
  function AcceptAll(s: Rx, body: seq<byte>): (r: Rx)
    requires Inv(s)
    ensures Inv(r)
    decreases body
  {
    if body == [] then s else AcceptAll(Accept(s, body[0]), body[1..])
  }

  /** No byte of `body` ends a frame. */
  predicate Silent(s: Rx, body: seq<byte>)
    requires Inv(s)
    decreases body
  {
    body == [] || (!Delivers(s, body[0]) && Silent(Accept(s, body[0]), body[1..]))
  }

  lemma AcceptIgnoresHeaders(s: Rx, h: nat, b: byte)
    requires Inv(s) && h <= 2
    ensures Accept(s.(headerBytesSeen := h), b) == Accept(s, b).(headerBytesSeen := h)
    ensures Delivers(s.(headerBytesSeen := h), b) == Delivers(s, b)
  {
  }

  lemma {:induction false} AcceptAllIgnoresHeaders(s: Rx, h: nat, body: seq<byte>)
    requires Inv(s) && h <= 2
    ensures AcceptAll(s.(headerBytesSeen := h), body) == AcceptAll(s, body).(headerBytesSeen := h)
    ensures Silent(s.(headerBytesSeen := h), body) == Silent(s, body)
    decreases body
  {
    if body != [] {
      AcceptIgnoresHeaders(s, h, body[0]);
      AcceptAllIgnoresHeaders(Accept(s, body[0]), h, body[1..]);
    }
  }

  /** One byte and its stuff byte, if any: the receiver's header count mirrors the
      transmitter's countdown. */
  lemma StuffedByteIsAccepted(s: Rx, countdown: nat, b: byte)
    requires Inv(s) && 1 <= countdown <= 2 && s.headerBytesSeen == 2 - countdown && !Delivers(s, b)
    ensures Run(s, StuffedByte(countdown, b)) == Accept(s, b).(headerBytesSeen := 2 - NextCountdown(countdown, b))
    ensures Deliveries(s, StuffedByte(countdown, b)) == []
  {
    AcceptIgnoresHeaders(s, if b == HEADER_BYTE then s.headerBytesSeen + 1 else 0, b);
    RunOne(s, b);
    if b == HEADER_BYTE && countdown == 1 {
      RunOne(Step(s, b), STUFF_BYTE);
      RunAppend(s, [b], [STUFF_BYTE]);
      assert [b] + [STUFF_BYTE] == [b, STUFF_BYTE];
    }
  }

  lemma RunOne(s: Rx, b: byte)
    requires Inv(s)
    ensures Inv(Step(s, b))
    ensures Run(s, [b]) == Step(s, b) && Deliveries(s, [b]) == Output(s, b)
  {
    assert [b][1..] == [];
  }

  /** Stuffed bytes drive the receiver exactly as the plain body drives its phases. */
  lemma {:induction false} StuffIsAccepted(s: Rx, body: seq<byte>, countdown: nat)
    requires Inv(s) && 1 <= countdown <= 2 && s.headerBytesSeen == 2 - countdown && Silent(s, body)
    ensures Run(s, Stuff(body, countdown))
         == AcceptAll(s, body).(headerBytesSeen := 2 - FinalCountdown(body, countdown))
    ensures Deliveries(s, Stuff(body, countdown)) == []
    decreases body
  {
    if body != [] {
      var b, rest, next := body[0], body[1..], NextCountdown(countdown, body[0]);
      var t := Accept(s, b);
      var t' := t.(headerBytesSeen := 2 - next);
      StuffedByteIsAccepted(s, countdown, b);
      RunAppend(s, StuffedByte(countdown, b), Stuff(rest, next));
      AcceptAllIgnoresHeaders(t, 2 - next, rest);
      StuffIsAccepted(t', rest, next);
    }
  }

  // ----- The round trip

  /** The payload part of a delivery. */
  function Received(d: Delivery): RawFrame
  {
    RawFrame(d.id, d.control, d.buf[..FrameLength(d.control)])
  }

  /** `r` is what `s` becomes once the payload has been stored and summed. */
  predicate PayloadTaken(s: Rx, r: Rx, payload: seq<byte>) {
    && r.phase == ReceivingChecksumHigh
    && r.id == s.id && r.control == s.control
    && r.sums == Fletcher.Run(s.sums, payload)
    && s.payloadBytes + |payload| <= MAX_PAYLOAD
    && r.buf[..s.payloadBytes + |payload|] == s.buf[..s.payloadBytes] + payload
  }

  lemma {:induction false} AcceptPayload(s: Rx, payload: seq<byte>)
    requires Inv(s) && s.payloadBytes + |payload| <= MAX_PAYLOAD
    requires if payload == [] then s.phase == ReceivingChecksumHigh
             else s.phase == ReceivingPayload && s.length == |payload|
    ensures PayloadTaken(s, AcceptAll(s, payload), payload)
    ensures Silent(s, payload)
    decreases payload
  {
    if payload == [] {
      assert s.buf[..s.payloadBytes] + payload == s.buf[..s.payloadBytes];
    } else {
      var t, r := Accept(s, payload[0]), AcceptAll(s, payload);
      AcceptPayloadByte(s, payload[0]);
      AcceptPayload(t, payload[1..]);
      PayloadTakenFromFirst(s, t, r, payload);
    }
  }

  lemma PayloadTakenFromFirst(s: Rx, t: Rx, r: Rx, payload: seq<byte>)
    requires payload != [] && s.payloadBytes + |payload| <= MAX_PAYLOAD
    requires PayloadTaken(t, r, payload[1..])
    requires t.payloadBytes == s.payloadBytes + 1 && t.buf[..t.payloadBytes] == s.buf[..s.payloadBytes] + [payload[0]]
    requires t.sums == Fletcher.Step(s.sums, payload[0]) && t.id == s.id && t.control == s.control
    ensures PayloadTaken(s, r, payload)
  {
    FirstMoves(s.buf[..s.payloadBytes], payload);
    assert t.payloadBytes + |payload[1..]| == s.payloadBytes + |payload|;
  }

  lemma FirstMoves(before: seq<byte>, payload: seq<byte>)
    requires payload != []
    ensures before + payload == before + [payload[0]] + payload[1..]
  {
    assert payload == [payload[0]] + payload[1..];
  }

  lemma AcceptPayloadByte(s: Rx, b: byte)
    requires Inv(s) && s.phase == ReceivingPayload
    ensures var t := Accept(s, b);
            && t.buf[..t.payloadBytes] == s.buf[..s.payloadBytes] + [b]
            && t.payloadBytes == s.payloadBytes + 1 && t.length == s.length - 1
            && t.phase == (if s.length == 1 then ReceivingChecksumHigh else ReceivingPayload)
            && t.sums == Fletcher.Step(s.sums, b)
            && t.id == s.id && t.control == s.control
  {
  }

  lemma {:induction false} AcceptAllAppend(s: Rx, x: seq<byte>, y: seq<byte>)
    requires Inv(s)
    ensures AcceptAll(s, x + y) == AcceptAll(AcceptAll(s, x), y)
    ensures Silent(s, x + y) <==> Silent(s, x) && Silent(AcceptAll(s, x), y)
    decreases x
  {
    if x == [] {
      assert x + y == y;
    } else {
      assert (x + y)[1..] == x[1..] + y;
      AcceptAllAppend(Accept(s, x[0]), x[1..], y);
    }
  }

  lemma AcceptTwo(s: Rx, a: byte, b: byte)
    requires Inv(s)
    ensures AcceptAll(s, [a, b]) == Accept(Accept(s, a), b)
    ensures Silent(s, [a, b]) <==> !Delivers(s, a) && !Delivers(Accept(s, a), b)
  {
    assert [a, b][1..] == [b] && [b][1..] == [];
    var t := Accept(s, a);
    assert AcceptAll(t, [b]) == AcceptAll(Accept(t, b), []);
    assert Silent(t, [b]) <==> !Delivers(t, b) && Silent(Accept(t, b), []);
  }

  lemma AcceptIdAndControl(s: Rx, id: byte, control: byte)
    requires Inv(s) && s.phase == ReceivingId
    ensures var r := AcceptAll(s, [id, control]);
            && r.id == id && r.control == control && r.payloadBytes == 0
            && r.sums == Fletcher.Run(Fletcher.INITIAL, [id, control])
            && r.length == FrameLength(control)
            && r.phase == if FrameLength(control) > 0 then ReceivingPayload else ReceivingChecksumHigh
    ensures Silent(s, [id, control])
  {
    AcceptTwo(s, id, control);
    Fletcher.RunAppend(Fletcher.INITIAL, [id], [control]);
    assert [id] + [control] == [id, control];
    Fletcher.RunOne(Fletcher.INITIAL, id);
    Fletcher.RunOne(Fletcher.Step(Fletcher.INITIAL, id), control);
  }

  lemma AcceptMessage(s: Rx, f: Frame)
    requires Inv(s) && s.phase == ReceivingId
    ensures var r := AcceptAll(s, Message(f));
            && r.phase == ReceivingChecksumHigh
            && Received(DeliveryOf(r)) == f
            && r.sums == Fletcher.Run(Fletcher.INITIAL, Message(f))
    ensures Silent(s, Message(f))
  {
    var t := AcceptAll(s, [f.id, f.control]);
    AcceptIdAndControl(s, f.id, f.control);
    AcceptAllAppend(s, [f.id, f.control], f.payload);
    AcceptPayload(t, f.payload);
    Fletcher.RunAppend(Fletcher.INITIAL, [f.id, f.control], f.payload);
  }

  lemma AcceptChecksum(s: Rx, high: byte, low: byte)
    requires Inv(s) && s.phase == ReceivingChecksumHigh
    requires high == Fletcher.High(Fletcher.Finalize(s.sums)) && low == Fletcher.Low(Fletcher.Finalize(s.sums))
    ensures var r := AcceptAll(s, [high, low]); r.phase == ReceivingEof && DeliveryOf(r) == DeliveryOf(s)
    ensures Silent(s, [high, low])
  {
    AcceptTwo(s, high, low);
  }

  lemma AcceptBody(s: Rx, f: Frame)
    requires Inv(s) && s.phase == ReceivingId
    ensures var r := AcceptAll(s, Body(f)); r.phase == ReceivingEof && Received(DeliveryOf(r)) == f
    ensures Silent(s, Body(f))
  {
    var c := Fletcher.Checksum(Message(f));
    AcceptMessage(s, f);
    AcceptAllAppend(s, Message(f), [c.0, c.1]);
    AcceptChecksum(AcceptAll(s, Message(f)), c.0, c.1);
  }

  lemma HeaderInSteps(s: Rx, s1: Rx, s2: Rx)
    requires Inv(s) && s1 == Step(s, HEADER_BYTE) && s2 == Step(s1, HEADER_BYTE)
    ensures Inv(s1) && Inv(s2) && Run(s, HEADER) == Step(s2, HEADER_BYTE)
    ensures Deliveries(s, HEADER) == Output(s, HEADER_BYTE) + Output(s1, HEADER_BYTE) + Output(s2, HEADER_BYTE)
  {
    RunOne(s, HEADER_BYTE);
    RunOne(s1, HEADER_BYTE);
    RunOne(s2, HEADER_BYTE);
    RunAppend(s, [HEADER_BYTE], [HEADER_BYTE]);
    RunAppend(s, [HEADER_BYTE] + [HEADER_BYTE], [HEADER_BYTE]);
    assert HEADER == [HEADER_BYTE] + [HEADER_BYTE] + [HEADER_BYTE];
  }

  /** Three header bytes put any receiver that has seen none so far at the start of a frame,
      whatever it was doing, and deliver nothing. */
  lemma HeaderStartsFrame(s: Rx)
    requires Inv(s) && s.headerBytesSeen == 0
    ensures Run(s, HEADER).phase == ReceivingId && Run(s, HEADER).headerBytesSeen == 0
    ensures Deliveries(s, HEADER) == []
  {
    var s1 := Step(s, HEADER_BYTE);
    HeaderInSteps(s, s1, Step(s1, HEADER_BYTE));
  }

  /** From any state that has seen no header byte, a transmitted frame is delivered, once, with
      nothing else, and leaves the receiver ready for the next. */
  lemma RoundTrip(s: Rx, f: Frame)
    requires Inv(s) && s.headerBytesSeen == 0
    ensures |Deliveries(s, Wire(f))| == 1
    ensures Received(Deliveries(s, Wire(f))[0]) == f
    ensures Run(s, Wire(f)).headerBytesSeen == 0
  {
    var start := Run(s, HEADER);
    var stuffed := Stuff(Body(f), 2);
    HeaderStartsFrame(s);
    AcceptBody(start, f);
    StuffIsAccepted(start, Body(f), 2);
    var last := Run(start, stuffed);
    RunAppend(s, HEADER, stuffed);
    RunAppend(s, HEADER + stuffed, [EOF_BYTE]);
    RunOne(last, EOF_BYTE);
    EofEnds(last);
  }

  /** After any byte other than a header byte, no header byte counts as seen. */
  lemma EofEnds(s: Rx)
    requires Inv(s)
    ensures forall b: byte :: b != HEADER_BYTE ==> Step(s, b).headerBytesSeen == 0
  {
  }

  function ReceivedAll(ds: seq<Delivery>): seq<RawFrame>
  {
    seq(|ds|, i requires 0 <= i < |ds| => Received(ds[i]))
  }

  /** Frames sent back to back arrive as that same sequence of frames. */
  lemma {:induction false} BackToBack(s: Rx, fs: seq<Frame>)
    requires Inv(s) && s.headerBytesSeen == 0
    ensures ReceivedAll(Deliveries(s, Wires(fs))) == fs
    ensures Run(s, Wires(fs)).headerBytesSeen == 0
    decreases fs
  {
    if fs != [] {
      RoundTrip(s, fs[0]);
      RunAppend(s, Wire(fs[0]), Wires(fs[1..]));
      BackToBack(Run(s, Wire(fs[0])), fs[1..]);
    }
  }

  // ----- Noise

  /** Whatever came before, the end of any frame resets the header count. */
  lemma FrameEndsCount(s: Rx, f: Frame)
    requires Inv(s)
    ensures Run(s, Wire(f)).headerBytesSeen == 0
  {
    var w := Wire(f);
    var rest := w[..|w| - 1];
    assert w == rest + [EOF_BYTE];
    RunAppend(s, rest, [EOF_BYTE]);
    RunOne(Run(s, rest), EOF_BYTE);
    EofEnds(Run(s, rest));
  }

  lemma CleanTail(s: Rx, prefix: seq<byte>, fs: seq<Frame>)
    requires Inv(s) && Run(s, prefix).headerBytesSeen == 0
    ensures ReceivedAll(Deliveries(s, prefix + Wires(fs))) == ReceivedAll(Deliveries(s, prefix)) + fs
  {
    RunAppend(s, prefix, Wires(fs));
    BackToBack(Run(s, prefix), fs);
    ReceivedAppend(Deliveries(s, prefix), Deliveries(Run(s, prefix), Wires(fs)));
  }

  lemma ReceivedAppend(x: seq<Delivery>, y: seq<Delivery>)
    ensures ReceivedAll(x + y) == ReceivedAll(x) + ReceivedAll(y)
  {
  }

  /** After any bytes at all, at most the first transmitted frame is lost or garbled: the later
      ones are all delivered, in order, and nothing is delivered between or after them. */
  lemma Resynchronises(s: Rx, noise: seq<byte>, f: Frame, fs: seq<Frame>)
    requires Inv(s)
    ensures ReceivedAll(Deliveries(s, noise + Wire(f) + Wires(fs)))
         == ReceivedAll(Deliveries(s, noise + Wire(f))) + fs
  {
    RunAppend(s, noise, Wire(f));
    FrameEndsCount(Run(s, noise), f);
    CleanTail(s, noise + Wire(f), fs);
  }

  /** Noise that does not end in a header byte loses nothing. */
  lemma HarmlessNoise(s: Rx, noise: seq<byte>, b: byte, fs: seq<Frame>)
    requires Inv(s) && b != HEADER_BYTE
    ensures ReceivedAll(Deliveries(s, noise + [b] + Wires(fs)))
         == ReceivedAll(Deliveries(s, noise + [b])) + fs
  {
    RunAppend(s, noise, [b]);
    RunOne(Run(s, noise), b);
    EofEnds(Run(s, noise));
    CleanTail(s, noise + [b], fs);
  }

  // ----- When the first frame is lost

  /** From s to r no new frame was begun: what was delivered in between carries the id of s, and
      the control byte too if s had that already. A receiver that is searching delivers nothing. */
  predicate Within(s: Rx, r: Rx, ds: seq<Delivery>) {
    && s.phase != ReceivingId && r.phase != ReceivingId && r.id == s.id
    && (forall d :: d in ds ==> d.id == s.id)
    && (s.phase != ReceivingControl ==>
          r.phase != ReceivingControl && r.control == s.control && forall d :: d in ds ==> d.control == s.control)
    && (s.phase == SearchingForSof ==> r.phase == SearchingForSof && ds == [])
  }

  lemma WithinTwice(s: Rx, t: Rx, r: Rx, x: seq<Delivery>, y: seq<Delivery>)
    requires Within(s, t, x) && Within(t, r, y)
    ensures Within(s, r, x + y)
  {
  }

  lemma StepWithin(s: Rx, b: byte)
    requires Inv(s) && s.phase != ReceivingId && (s.headerBytesSeen == 2 ==> b != HEADER_BYTE)
    ensures Within(s, Step(s, b), Output(s, b))
  {
  }

  lemma StuffedByteWithin(s: Rx, countdown: nat, b: byte)
    requires Inv(s) && 1 <= countdown <= 2 && s.headerBytesSeen == 2 - countdown && s.phase != ReceivingId
    ensures Within(s, Run(s, StuffedByte(countdown, b)), Deliveries(s, StuffedByte(countdown, b)))
    ensures Run(s, StuffedByte(countdown, b)).headerBytesSeen == 2 - NextCountdown(countdown, b)
  {
    var t := Step(s, b);
    StepWithin(s, b);
    RunOne(s, b);
    if b == HEADER_BYTE && countdown == 1 {
      StepWithin(t, STUFF_BYTE);
      RunOne(t, STUFF_BYTE);
      RunAppend(s, [b], [STUFF_BYTE]);
      assert [b] + [STUFF_BYTE] == [b, STUFF_BYTE];
      WithinTwice(s, t, Step(t, STUFF_BYTE), Output(s, b), Output(t, STUFF_BYTE));
    }
  }

  /** Stuffed bytes never begin a frame, whatever the receiver takes them for. */
  lemma {:induction false} StuffWithin(s: Rx, body: seq<byte>, countdown: nat)
    requires Inv(s) && 1 <= countdown <= 2 && s.headerBytesSeen == 2 - countdown && s.phase != ReceivingId
    ensures Within(s, Run(s, Stuff(body, countdown)), Deliveries(s, Stuff(body, countdown)))
    ensures Run(s, Stuff(body, countdown)).headerBytesSeen == 2 - FinalCountdown(body, countdown)
    decreases body
  {
    if body != [] {
      var x, next := StuffedByte(countdown, body[0]), NextCountdown(countdown, body[0]);
      var y := Stuff(body[1..], next);
      var t := Run(s, x);
      StuffedByteWithin(s, countdown, body[0]);
      StuffWithin(t, body[1..], next);
      RunAppend(s, x, y);
      WithinTwice(s, t, Run(t, y), Deliveries(s, x), Deliveries(t, y));
    }
  }

  /** The bytes that follow the header, given what is left of the body. */
  function Tail(body: seq<byte>): seq<byte> {
    Stuff(body, 2) + [EOF_BYTE]
  }

  lemma TailWithin(s: Rx, body: seq<byte>)
    requires Inv(s) && s.headerBytesSeen == 0 && s.phase != ReceivingId
    ensures Within(s, Run(s, Tail(body)), Deliveries(s, Tail(body)))
  {
    var y := Stuff(body, 2);
    var t := Run(s, y);
    StuffWithin(s, body, 2);
    StepWithin(t, EOF_BYTE);
    RunOne(t, EOF_BYTE);
    RunAppend(s, y, [EOF_BYTE]);
    WithinTwice(s, t, Step(t, EOF_BYTE), Deliveries(s, y), Output(t, EOF_BYTE));
  }

  /** A receiver that has taken a byte of the header for the id of a frame, or one for the id and
      one for the control byte. */
  predicate Misled(s: Rx) {
    && Inv(s) && s.id == HEADER_BYTE
    && if s.headerBytesSeen == 1 then s.phase == ReceivingControl
       else s.headerBytesSeen == 2 && s.phase == ReceivingPayload && s.control == HEADER_BYTE
  }

  lemma HeaderMisleads(s: Rx)
    requires Inv(s) && s.headerBytesSeen > 0
    ensures Misled(Run(s, HEADER)) && Deliveries(s, HEADER) == []
  {
    var s1 := Step(s, HEADER_BYTE);
    var s2 := Step(s1, HEADER_BYTE);
    HeaderInSteps(s, s1, s2);
    HeaderDeliversNothing(s);
    HeaderDeliversNothing(s1);
    HeaderDeliversNothing(s2);
    if s.headerBytesSeen == 1 {
      HeaderAsId(s2);
    } else {
      HeaderAsId(s1);
      HeaderAsControl(s2);
    }
  }

  lemma HeaderAsId(s: Rx)
    requires Inv(s) && s.headerBytesSeen == 0 && s.phase == ReceivingId
    ensures var r := Step(s, HEADER_BYTE); r.phase == ReceivingControl && r.id == HEADER_BYTE && r.headerBytesSeen == 1
  {
  }

  lemma HeaderAsControl(s: Rx)
    requires Inv(s) && s.headerBytesSeen == 1 && s.phase == ReceivingControl && s.id == HEADER_BYTE
    ensures Misled(Step(s, HEADER_BYTE))
  {
    LengthOfHeader();
  }

  lemma LengthOfHeader()
    ensures FrameLength(HEADER_BYTE) == 10
  {
  }

  lemma HeaderDeliversNothing(s: Rx)
    ensures Output(s, HEADER_BYTE) == []
  {
  }

  predicate Arrives(f: Frame, ds: seq<Delivery>) {
    exists d :: d in ds && Received(d) == f
  }

  lemma RunFirst(s: Rx, b: byte, rest: seq<byte>)
    requires Inv(s)
    ensures Inv(Step(s, b))
    ensures Deliveries(s, [b] + rest) == Output(s, b) + Deliveries(Step(s, b), rest)
  {
    assert ([b] + rest)[1..] == rest;
  }

  /** The id of the frame is not a header byte: it is taken for the control byte, or for data. */
  lemma MisledByOther(s: Rx, f: Frame)
    requires Misled(s) && f.id != HEADER_BYTE
    ensures !Arrives(f, Deliveries(s, Tail(Body(f))))
  {
    var t := Step(s, f.id);
    assert Tail(Body(f)) == [f.id] + Tail(Body(f)[1..]);
    RunFirst(s, f.id, Tail(Body(f)[1..]));
    TailWithin(t, Body(f)[1..]);
    assert t.id == HEADER_BYTE && Output(s, f.id) == [];
  }

  /** It is one, but the control byte is not: that is taken for the id, or ends the attempt. */
  lemma MisledByHeaderByte(s: Rx, f: Frame)
    requires Misled(s) && f.id == HEADER_BYTE && f.control != HEADER_BYTE
    ensures !Arrives(f, Deliveries(s, Tail(Body(f))))
  {
    var rest := Tail(Body(f)[2..]);
    var t := Step(s, f.id);
    TailAfterTwo(f);
    RunFirst(s, f.id, [f.control] + rest);
    RunFirst(t, f.control, rest);
    ControlTaken(s, f.control);
    TailWithin(Step(t, f.control), Body(f)[2..]);
  }

  lemma ControlTaken(s: Rx, control: byte)
    requires Misled(s) && control != HEADER_BYTE
    ensures var t := Step(s, HEADER_BYTE);
            var u := Step(t, control);
            && Output(s, HEADER_BYTE) == [] && Output(t, control) == []
            && u.headerBytesSeen == 0 && u.phase != ReceivingId
            && (u.id == control || (u.phase != ReceivingControl && u.control == HEADER_BYTE))
  {
  }

  lemma TailAfterTwo(f: Frame)
    requires f.id == HEADER_BYTE
    ensures f.control != HEADER_BYTE ==> Tail(Body(f)) == [f.id] + ([f.control] + Tail(Body(f)[2..]))
    ensures f.control == HEADER_BYTE ==> Tail(Body(f)) == [f.id] + ([f.control] + ([STUFF_BYTE] + Tail(Body(f)[2..])))
  {
    var rest := Stuff(Body(f)[2..], 2);
    StuffTwo(Body(f));
    TailInParts(f.id, [f.control], rest);
    TailInParts(f.id, [f.control, STUFF_BYTE], rest);
    TwoInOrder(f.control, STUFF_BYTE, rest + [EOF_BYTE]);
  }

  lemma StuffTwo(body: seq<byte>)
    requires |body| >= 2 && body[0] == HEADER_BYTE
    ensures Stuff(body, 2) == [body[0]] + (StuffedByte(1, body[1]) + Stuff(body[2..], 2))
  {
    StuffFirst(body, 2);
    StuffFirst(body[1..], 1);
    assert body[1..][1..] == body[2..];
  }

  lemma TailInParts(id: byte, x: seq<byte>, rest: seq<byte>)
    ensures [id] + (x + rest) + [EOF_BYTE] == [id] + (x + (rest + [EOF_BYTE]))
  {
  }

  lemma TwoInOrder(a: byte, b: byte, rest: seq<byte>)
    ensures [a, b] + rest == [a] + ([b] + rest)
  {
  }

  lemma StuffFirst(body: seq<byte>, countdown: nat)
    requires 1 <= countdown <= 2 && body != []
    ensures Stuff(body, countdown) == StuffedByte(countdown, body[0]) + Stuff(body[1..], NextCountdown(countdown, body[0]))
  {
  }

  /** Both are: the stuff byte after them is taken for the id, or for the control byte. */
  lemma MisledByTwo(s: Rx, f: Frame)
    requires Misled(s) && f.id == HEADER_BYTE && f.control == HEADER_BYTE
    ensures !Arrives(f, Deliveries(s, Tail(Body(f))))
  {
    var rest := Tail(Body(f)[2..]);
    var t := Step(s, HEADER_BYTE);
    var u := Step(t, HEADER_BYTE);
    TailAfterTwo(f);
    RunFirst(s, HEADER_BYTE, [HEADER_BYTE] + ([STUFF_BYTE] + rest));
    RunFirst(t, HEADER_BYTE, [STUFF_BYTE] + rest);
    RunFirst(u, STUFF_BYTE, rest);
    StuffByteTaken(s);
    TailWithin(Step(u, STUFF_BYTE), Body(f)[2..]);
  }

  lemma StuffByteTaken(s: Rx)
    requires Misled(s)
    ensures var t := Step(s, HEADER_BYTE);
            var u := Step(t, HEADER_BYTE);
            var v := Step(u, STUFF_BYTE);
            && Output(s, HEADER_BYTE) == [] && Output(t, HEADER_BYTE) == [] && Output(u, STUFF_BYTE) == []
            && v.headerBytesSeen == 0 && v.phase != ReceivingId
            && (v.id == STUFF_BYTE || (v.phase != ReceivingControl && v.control == STUFF_BYTE))
  {
  }

  lemma MisledLoses(s: Rx, f: Frame)
    requires Misled(s)
    ensures !Arrives(f, Deliveries(s, Tail(Body(f))))
  {
    if f.id != HEADER_BYTE {
      MisledByOther(s, f);
    } else if f.control != HEADER_BYTE {
      MisledByHeaderByte(s, f);
    } else {
      MisledByTwo(s, f);
    }
  }

  lemma WireInTwo(s: Rx, f: Frame)
    requires Inv(s) && Deliveries(s, HEADER) == []
    ensures Deliveries(s, Wire(f)) == Deliveries(Run(s, HEADER), Tail(Body(f)))
  {
    RunAppend(s, HEADER, Tail(Body(f)));
    assert Wire(f) == HEADER + Tail(Body(f));
  }

  /** A transmitted frame arrives exactly if the receiver counts no header byte when it begins. */
  lemma FrameArrivesIff(s: Rx, f: Frame)
    requires Inv(s)
    ensures Arrives(f, Deliveries(s, Wire(f))) <==> s.headerBytesSeen == 0
  {
    if s.headerBytesSeen == 0 {
      RoundTrip(s, f);
    } else {
      HeaderMisleads(s);
      WireInTwo(s, f);
      MisledLoses(Run(s, HEADER), f);
    }
  }

  /** How many header bytes the noise ends in. */
  function HeadersAtEnd(noise: seq<byte>): nat {
    if noise == [] || noise[|noise| - 1] != HEADER_BYTE then 0 else HeadersAtEnd(noise[..|noise| - 1]) + 1
  }

  lemma {:induction false} HeadersCounted(s: Rx, noise: seq<byte>)
    requires Inv(s) && s.headerBytesSeen == 0
    ensures Run(s, noise).headerBytesSeen == HeadersAtEnd(noise) % 3
    decreases |noise|
  {
    if noise != [] {
      var before, b := noise[..|noise| - 1], noise[|noise| - 1];
      HeadersCounted(s, before);
      RunOneMore(s, before, b, noise);
      HeaderCountOn(Run(s, before), b, HeadersAtEnd(before));
    }
  }

  lemma RunOneMore(s: Rx, before: seq<byte>, b: byte, all: seq<byte>)
    requires Inv(s) && all == before + [b]
    ensures Run(s, all) == Step(Run(s, before), b)
  {
    RunAppend(s, before, [b]);
    RunOne(Run(s, before), b);
  }

  lemma HeaderCountOn(s: Rx, b: byte, n: nat)
    requires Inv(s) && s.headerBytesSeen == n % 3
    ensures Step(s, b).headerBytesSeen == (if b == HEADER_BYTE then n + 1 else 0) % 3
  {
    OneMoreModulo(n);
  }

  lemma OneMoreModulo(n: nat)
    ensures (n + 1) % 3 == if n % 3 == 2 then 0 else n % 3 + 1
  {
  }

  /** So the first frame after noise is lost exactly if the noise ends in a number of header bytes
      that is not a multiple of three. */
  lemma FirstFrameLostIff(s: Rx, noise: seq<byte>, f: Frame)
    requires Inv(s) && s.headerBytesSeen == 0
    ensures Inv(Run(s, noise))
    ensures !Arrives(f, Deliveries(Run(s, noise), Wire(f))) <==> HeadersAtEnd(noise) % 3 != 0
  {
    HeadersCounted(s, noise);
    FrameArrivesIff(Run(s, noise), f);
  }

  // ----- What is rejected

  /** Bytes as long as the control byte among them says, checksum included. */
  predicate IsBody(body: seq<byte>) {
    |body| >= 4 && |body| == FrameLength(body[1]) + 4
  }

  /** The frame that a body stands for. */
  function FrameOf(body: seq<byte>): (f: Frame)
    requires IsBody(body)
  {
    RawFrame(body[0], body[1], body[2..|body| - 2])
  }

  lemma BodyParts(body: seq<byte>)
    requires IsBody(body)
    ensures var n := |body| - 2; Message(FrameOf(body)) == body[..n] && body == body[..n] + [body[n], body[n + 1]]
  {
  }

  /** Two bytes taken for the checksum: the end of the frame is awaited only if they are right. */
  lemma CheckTaken(s: Rx, high: byte, low: byte)
    requires Inv(s) && s.phase == ReceivingChecksumHigh
    ensures var r, f := AcceptAll(s, [high, low]), Fletcher.Finalize(s.sums);
            && DeliveryOf(r) == DeliveryOf(s)
            && r.phase == if high == Fletcher.High(f) && low == Fletcher.Low(f) then ReceivingEof else SearchingForSof
    ensures Silent(s, [high, low])
  {
    AcceptTwo(s, high, low);
    TwoBytes(high, low, Fletcher.High(Fletcher.Finalize(s.sums)), Fletcher.Low(Fletcher.Finalize(s.sums)));
  }

  lemma TwoBytes(a: byte, b: byte, c: byte, d: byte)
    ensures a * 0x100 + b == c * 0x100 + d <==> a == c && b == d
  {
  }

  lemma BodyTaken(s: Rx, body: seq<byte>)
    requires Inv(s) && s.phase == ReceivingId && IsBody(body)
    ensures var r := AcceptAll(s, body);
            && Received(DeliveryOf(r)) == FrameOf(body)
            && r.phase == if Fletcher.Accepted(body) then ReceivingEof else SearchingForSof
    ensures Silent(s, body)
  {
    var n, f := |body| - 2, FrameOf(body);
    BodyParts(body);
    AcceptMessage(s, f);
    AcceptAllAppend(s, body[..n], [body[n], body[n + 1]]);
    CheckTaken(AcceptAll(s, body[..n]), body[n], body[n + 1]);
  }

  /** Whatever bytes are stuffed and sent as a body: they are delivered, once and as the frame they
      stand for, if and only if their checksum is right and the last byte is the one that ends a
      frame. */
  lemma DeliveredIffAccepted(s: Rx, body: seq<byte>, last: byte)
    requires Inv(s) && s.headerBytesSeen == 0 && IsBody(body)
    ensures var ds := Deliveries(s, HEADER + Stuff(body, 2) + [last]);
            if Fletcher.Accepted(body) && last == EOF_BYTE then |ds| == 1 && Received(ds[0]) == FrameOf(body) else ds == []
  {
    var start, stuffed := Run(s, HEADER), Stuff(body, 2);
    HeaderStartsFrame(s);
    BodyTaken(start, body);
    StuffIsAccepted(start, body, 2);
    RunAppend(s, HEADER, stuffed);
    RunAppend(s, HEADER + stuffed, [last]);
    RunOne(Run(start, stuffed), last);
  }

  lemma BodyOfFrame(f: Frame)
    ensures IsBody(Body(f)) && Fletcher.Accepted(Body(f)) && FrameOf(Body(f)) == f
  {
    var body, n := Body(f), |Body(f)| - 2;
    assert body[..n] == Message(f);
    assert body[2..n] == f.payload;
  }

  /** A frame of which two adjacent bytes, checksum included but not the length, have been changed on
      the way is delivered if and only if every change swapped 0x00 with 0xFF before the checksum. */
  lemma DamagedDeliveredIff(s: Rx, f: Frame, i: nat, x: byte, y: byte)
    requires Inv(s) && s.headerBytesSeen == 0 && i + 1 < |Body(f)|
    requires var changed := Body(f)[i := x][i + 1 := y]; FrameLength(changed[1]) == FrameLength(f.control)
    ensures var body := Body(f);
            var changed := body[i := x][i + 1 := y];
            Deliveries(s, HEADER + Stuff(changed, 2) + [EOF_BYTE]) != []
            <==> Fletcher.Unnoticed(body, i, x) && Fletcher.Unnoticed(body, i + 1, y)
  {
    BodyOfFrame(f);
    DeliveredIffAccepted(s, Body(f)[i := x][i + 1 := y], EOF_BYTE);
    Fletcher.AdjacentChangeInBody(Body(f), i, x, y);
  }

  /** Bytes without a header byte are sent as they are; two header bytes are followed by 0x55. */
  lemma {:induction false} StuffPlain(body: seq<byte>)
    requires forall k :: 0 <= k < |body| ==> body[k] != 0xAA
    ensures Stuff(body, 2) == body
    decreases body
  {
    if body != [] {
      StuffPlain(body[1..]);
    }
  }

  lemma StuffPair()
    ensures Stuff([0xAA, 0xAA], 2) == [0xAA, 0xAA, 0x55]
  {
    StuffTwo([0xAA, 0xAA]);
  }

  /** The frame that saves the rules, byte by byte. */
  lemma SaveFrameOnWire()
    ensures Wire(RawFrame(0x0C, 0, [])) == [0xAA, 0xAA, 0xAA, 0x0C, 0x00, 0x18, 0x0C, 0x55]
  {
    var f: Frame := RawFrame(0x0C, 0, []);
    SaveFrameBody(f);
    StuffPlain([0x0C, 0x00, 0x18, 0x0C]);
  }

  lemma SaveFrameBody(f: Frame)
    requires f == RawFrame(0x0C, 0, [])
    ensures Body(f) == [0x0C, 0x00, 0x18, 0x0C]
  {
    assert Message(f) == [0x0C, 0x00];
    SaveFrameSums();
  }

  lemma SaveFrameSums()
    ensures Fletcher.Checksum([0x0C, 0x00]) == (0x18, 0x0C)
  {
    Fletcher.ChecksumClosedForm([0x0C, 0x00]);
    SumsOfTwo([0x0C, 0x00], 0x0C, 0x00);
  }

  lemma SumsOfTwo(m: seq<byte>, x: nat, y: nat)
    requires |m| == 2 && x == m[0] as nat && y == m[1] as nat
    ensures Fletcher.ByteSum(m) == x + y && Fletcher.WeightedSum(m) == 2 * x + y
  {
    assert m[1..][1..] == [];
    assert Fletcher.ByteSum(m[1..]) == y && Fletcher.WeightedSum(m[1..]) == y;
    assert |m| * m[0] == 2 * x;
  }

  // ----- The receiver

  class Receiver {
    const frameBuf: array<byte>
    var sums: Fletcher.Sums
    var headerBytesSeen: byte
    var phase: Phase
    var frameChecksum: word
    var payloadBytes: byte
    var frameId: byte
    var frameLength: byte
    var control: byte
    /** The frames passed up so far. */
    var delivered: seq<Delivery>

    ghost function State(): Rx
      requires frameBuf.Length == MAX_PAYLOAD
      reads this, frameBuf
    {
      Rx(phase, headerBytesSeen, sums, frameChecksum, payloadBytes, frameId, frameLength, control, frameBuf[..])
    }

    ghost predicate Valid()
      reads this, frameBuf
    {
      frameBuf.Length == MAX_PAYLOAD && Inv(State())
    }

    constructor ()
      ensures Valid() && headerBytesSeen == 0 && phase == SearchingForSof && delivered == []
      ensures fresh(frameBuf)
    {
      frameBuf := new byte[MAX_PAYLOAD](_ => 0);
      sums := Fletcher.Sums(0, 0);
      headerBytesSeen, phase := 0, SearchingForSof;
      frameChecksum, payloadBytes, frameId, frameLength, control := 0, 0, 0, 0, 0;
      delivered := [];
    }

    method RxByte(b: byte)
      requires Valid()
      modifies this, frameBuf
      ensures Valid()
      ensures State() == Step(old(State()), b)
      ensures delivered == old(delivered) + Output(old(State()), b)
    {
      if headerBytesSeen == 2 {
        headerBytesSeen := 0;
        if b == HEADER_BYTE {
          phase := ReceivingId;
          return;
        }
        if b == STUFF_BYTE {
          return;
        } else {
          phase := SearchingForSof;
          return;
        }
      }
      if b == HEADER_BYTE {
        headerBytesSeen := headerBytesSeen + 1;
      } else {
        headerBytesSeen := 0;
      }
      RxInPhase(b);
    }

    method RxInPhase(b: byte)
      requires Valid()
      modifies this, frameBuf
      ensures State() == Accept(old(State()), b)
      ensures delivered == old(delivered) + if Delivers(old(State()), b) then [DeliveryOf(old(State()))] else []
    {
      match phase
      case SearchingForSof =>
      case ReceivingId =>
        frameId := b;
        payloadBytes := 0;
        sums := Fletcher.INITIAL;
        sums := Fletcher.Step(sums, b);
        phase := ReceivingControl;
      case ReceivingControl =>
        frameLength := FrameLength(b);
        control := b;
        sums := Fletcher.Step(sums, b);
        if frameLength > 0 {
          phase := ReceivingPayload;
        } else {
          phase := ReceivingChecksumHigh;
        }
      case ReceivingPayload =>
        frameBuf[payloadBytes] := b;
        payloadBytes := payloadBytes + 1;
        sums := Fletcher.Step(sums, b);
        frameLength := frameLength - 1;
        if frameLength == 0 {
          phase := ReceivingChecksumHigh;
        }
      case ReceivingChecksumHigh =>
        frameChecksum := b * 0x100;
        phase := ReceivingChecksumLow;
      case ReceivingChecksumLow =>
        frameChecksum := frameChecksum + b;
        sums := Fletcher.Finalize(sums);
        if frameChecksum != FinalChecksum(sums) {
          phase := SearchingForSof;
        } else {
          phase := ReceivingEof;
        }
      case ReceivingEof =>
        if b == EOF_BYTE {
          delivered := delivered + [Delivery(frameId, control, frameBuf[..])];
        }
        phase := SearchingForSof;
    }
  }
}
