/** Uploading a rule over MIN: the command handlers behind layer 1, and the whole way from the
    bytes on the wire to the rule store. */
module Upload {
  import opened Bytes
  import opened MinWire
  import opened MinReceiver
  import opened RuleLayout
  import RuleStore

  const ID_RULE_START: byte := 0x03
  const ID_RULE_DATA: byte := 0x04
  const ID_RULE_END: byte := 0x05
  const ID_ERASE_ALL_RULES: byte := 0x09
  const ID_SAVE_RULES: byte := 0x0C
  const RULE_BUFFER_SIZE := 200

  datatype Response = Ack | Nak

  /** The handlers' state, and the rules in the store and saved. */
  datatype Board = Board(
    buffer: seq<byte>, index: nat, size: word, receiving: bool,
    rules: seq<Rule>, saved: seq<Rule>, responses: seq<Response>)

  predicate BoardOk(b: Board) {
    |b.buffer| == RULE_BUFFER_SIZE && b.index <= RULE_BUFFER_SIZE
  }

  /** Two bytes, high byte first. */
  function DecodeU16(high: byte, low: byte): word {
    high * 0x100 + low
  }

  function EncodeU16(x: word): (byte, byte) {
    (x / 0x100, x % 0x100)
  }

  /** Handlers unpack only what the control byte announces. */
  function UnpackU16(d: Delivery): word {
    if 2 <= d.control then DecodeU16(d.buf[0], d.buf[1]) else 0
  }

  function UnpackU8(d: Delivery, at: nat): byte
    requires at < MAX_PAYLOAD
  {
    if at < d.control then d.buf[at] else 0
  }

  predicate RoomFor(first: nat, end: nat, rules: seq<Rule>, r: Rule) {
    AddressOf(first, rules) + 1 + |r| <= end
  }

  /** What the handlers rely on: data stays inside the rule buffer, and the one-byte rule count
      has not run out. */
  predicate Safe(b: Board, d: Delivery) {
    && (d.id == ID_RULE_DATA && b.receiving ==> b.index + FrameLength(d.control) <= RULE_BUFFER_SIZE)
    && (d.id == ID_RULE_END || d.id == ID_SAVE_RULES ==> |b.rules| < 0xFF)
  }

  function SaveRules(b: Board): Board {
    if b.receiving then b.(responses := b.responses + [Nak]) else b.(saved := b.rules, responses := b.responses + [Ack])
  }

  function Handle(b: Board, d: Delivery, first: nat, end: nat): (r: Board)
    requires BoardOk(b) && Safe(b, d)
    ensures BoardOk(r)
  {
    if d.id == ID_RULE_START then
      b.(size := UnpackU16(d), index := 0, receiving := true)
    else if d.id == ID_RULE_DATA then
      if !b.receiving then b else
      var n := FrameLength(d.control);
      b.(buffer := b.buffer[..b.index] + d.buf[..n] + b.buffer[b.index + n..], index := b.index + n)
    else if d.id == ID_RULE_END then
      EndRule(b, first, end)
    else if d.id == ID_ERASE_ALL_RULES then
      if UnpackU8(d, 0) == 0x5D && UnpackU8(d, 1) == 0x92
      then b.(rules := [], saved := [], responses := b.responses + [Ack])
      else b.(responses := b.responses + [Nak])
    else if d.id == ID_SAVE_RULES then
      SaveRules(b)
    else b
  }

  /** The rule is complete, and is added if there is room. */
  function EndRule(b: Board, first: nat, end: nat): (r: Board)
    requires BoardOk(b)
    ensures BoardOk(r)
  {
    if !b.receiving || b.index != b.size then b.(receiving := false, responses := b.responses + [Nak])
    else
      var r := b.buffer[..b.size];
      if RoomFor(first, end, b.rules, r) then b.(receiving := false, rules := b.rules + [r], responses := b.responses + [Ack])
      else b.(receiving := false, responses := b.responses + [Nak])
  }

  predicate SafeAll(b: Board, ds: seq<Delivery>, first: nat, end: nat)
    requires BoardOk(b)
    decreases ds
  {
    ds == [] || (Safe(b, ds[0]) && SafeAll(Handle(b, ds[0], first, end), ds[1..], first, end))
  }

  function HandleAll(b: Board, ds: seq<Delivery>, first: nat, end: nat): (r: Board)
    requires BoardOk(b) && SafeAll(b, ds, first, end)
    ensures BoardOk(r)
    decreases ds
  {
    if ds == [] then b else HandleAll(Handle(b, ds[0], first, end), ds[1..], first, end)
  }

  lemma {:induction false} HandleAllAppend(b: Board, x: seq<Delivery>, y: seq<Delivery>, first: nat, end: nat)
    requires BoardOk(b)
    ensures SafeAll(b, x + y, first, end)
       <==> SafeAll(b, x, first, end) && SafeAll(HandleAll(b, x, first, end), y, first, end)
    ensures SafeAll(b, x + y, first, end) ==>
              HandleAll(b, x + y, first, end) == HandleAll(HandleAll(b, x, first, end), y, first, end)
    decreases x
  {
    if x == [] {
      assert x + y == y;
    } else {
      assert (x + y)[1..] == x[1..] + y;
      if Safe(b, x[0]) {
        HandleAllAppend(Handle(b, x[0], first, end), x[1..], y, first, end);
      }
    }
  }

  // ----- One upload

  function StartFrame(n: word): Frame {
    RawFrame(ID_RULE_START, 2, [EncodeU16(n).0, EncodeU16(n).1])
  }

  type Chunk = c: seq<byte> | |c| <= MAX_PAYLOAD witness []

  function DataFrame(c: Chunk): Frame {
    RawFrame(ID_RULE_DATA, |c|, c)
  }

  function DataFrames(cs: seq<Chunk>): seq<Frame> {
    if cs == [] then [] else [DataFrame(cs[0])] + DataFrames(cs[1..])
  }

  function EndFrame(): Frame {
    RawFrame(ID_RULE_END, 0, [])
  }

  function UploadFrames(n: word, cs: seq<Chunk>): seq<Frame> {
    [StartFrame(n)] + DataFrames(cs) + [EndFrame()]
  }

  function Joined(cs: seq<Chunk>): seq<byte> {
    if cs == [] then [] else cs[0] + Joined(cs[1..])
  }

  lemma U16RoundTrip(x: word)
    ensures DecodeU16(EncodeU16(x).0, EncodeU16(x).1) == x
  {
  }

  lemma HandleStart(b: Board, d: Delivery, n: word, first: nat, end: nat)
    requires BoardOk(b) && Received(d) == StartFrame(n)
    ensures Safe(b, d) && Handle(b, d, first, end) == b.(size := n, index := 0, receiving := true)
  {
    U16RoundTrip(n);
    assert d.buf[..2][0] == d.buf[0] && d.buf[..2][1] == d.buf[1];
  }

  lemma HandleData(b: Board, d: Delivery, c: Chunk, first: nat, end: nat)
    requires BoardOk(b) && b.receiving && Received(d) == DataFrame(c) && b.index + |c| <= RULE_BUFFER_SIZE
    ensures Safe(b, d)
    ensures var r := Handle(b, d, first, end);
            && r == b.(buffer := r.buffer, index := b.index + |c|)
            && r.buffer[..r.index] == b.buffer[..b.index] + c
  {
  }

  lemma {:induction false} HandleChunks(b: Board, ds: seq<Delivery>, cs: seq<Chunk>, first: nat, end: nat)
    requires BoardOk(b) && b.receiving && ReceivedAll(ds) == DataFrames(cs)
    requires b.index + |Joined(cs)| <= RULE_BUFFER_SIZE
    ensures SafeAll(b, ds, first, end)
    ensures var r := HandleAll(b, ds, first, end);
            && r == b.(buffer := r.buffer, index := b.index + |Joined(cs)|)
            && r.buffer[..r.index] == b.buffer[..b.index] + Joined(cs)
    decreases cs
  {
    ReceivedLength(ds);
    if cs == [] {
      assert b.buffer[..b.index] + [] == b.buffer[..b.index];
    } else {
      assert ReceivedAll(ds)[0] == Received(ds[0]);
      ReceivedTail(ds);
      HandleData(b, ds[0], cs[0], first, end);
      var t := Handle(b, ds[0], first, end);
      HandleChunks(t, ds[1..], cs[1..], first, end);
      assert b.buffer[..b.index] + cs[0] + Joined(cs[1..]) == b.buffer[..b.index] + Joined(cs);
    }
  }

  lemma ReceivedLength(ds: seq<Delivery>)
    ensures |ReceivedAll(ds)| == |ds|
    ensures forall i :: 0 <= i < |ds| ==> ReceivedAll(ds)[i] == Received(ds[i])
  {
  }

  lemma ReceivedTail(ds: seq<Delivery>)
    requires ds != []
    ensures ReceivedAll(ds[1..]) == ReceivedAll(ds)[1..]
  {
  }

  lemma ReceivedParts(ds: seq<Delivery>, n: word, cs: seq<Chunk>)
    requires ReceivedAll(ds) == UploadFrames(n, cs)
    ensures |ds| >= 2
    ensures ds == [ds[0]] + ds[1..|ds| - 1] + [ds[|ds| - 1]]
    ensures Received(ds[0]) == StartFrame(n) && Received(ds[|ds| - 1]) == EndFrame()
    ensures ReceivedAll(ds[1..|ds| - 1]) == DataFrames(cs)
  {
    var fs, k := UploadFrames(n, cs), |ds| - 1;
    ReceivedLength(ds);
    assert fs[0] == StartFrame(n) && fs[k] == EndFrame();
    assert fs[1..k] == DataFrames(cs);
    assert ReceivedAll(ds[1..k]) == ReceivedAll(ds)[1..k];
  }

  /** The deliveries of one upload extend the rules by exactly the bytes sent, when their number
      is the announced one and they fit; otherwise the rules stay as they were. Whatever
      happened before does not matter. */
  lemma HandleUpload(b: Board, ds: seq<Delivery>, n: word, cs: seq<Chunk>, first: nat, end: nat)
    requires BoardOk(b) && ReceivedAll(ds) == UploadFrames(n, cs)
    requires |Joined(cs)| <= RULE_BUFFER_SIZE && |b.rules| < 0xFF
    ensures SafeAll(b, ds, first, end)
    ensures var stored := n == |Joined(cs)| && RoomFor(first, end, b.rules, Joined(cs));
            var r := HandleAll(b, ds, first, end);
            && r.rules == (if stored then b.rules + [Joined(cs)] else b.rules)
            && r.responses == b.responses + [if stored then Ack else Nak]
            && r.saved == b.saved && !r.receiving
  {
    ReceivedParts(ds, n, cs);
    var d0, mid, d1 := ds[0], ds[1..|ds| - 1], ds[|ds| - 1];
    HandleStart(b, d0, n, first, end);
    var b1 := Handle(b, d0, first, end);
    HandleOne(b, d0, first, end);
    HandleChunks(b1, mid, cs, first, end);
    var b2 := HandleAll(b1, mid, first, end);
    HandleAllAppend(b, [d0], mid, first, end);
    HandleEnd(b2, d1, Joined(cs), first, end);
    HandleOne(b2, d1, first, end);
    HandleAllAppend(b, [d0] + mid, [d1], first, end);
  }

  lemma HandleOne(b: Board, d: Delivery, first: nat, end: nat)
    requires BoardOk(b) && Safe(b, d)
    ensures SafeAll(b, [d], first, end) && HandleAll(b, [d], first, end) == Handle(b, d, first, end)
  {
    assert [d][1..] == [];
  }

  lemma HandleEnd(b: Board, d: Delivery, data: seq<byte>, first: nat, end: nat)
    requires BoardOk(b) && b.receiving && Received(d) == EndFrame() && |b.rules| < 0xFF
    requires b.index == |data| && b.buffer[..b.index] == data
    ensures Safe(b, d)
    ensures var stored := b.size == |data| && RoomFor(first, end, b.rules, data);
            var rules, answer := if stored then b.rules + [data] else b.rules, if stored then Ack else Nak;
            Handle(b, d, first, end) == b.(receiving := false, rules := rules, responses := b.responses + [answer])
  {
  }

  /** End to end: from any receiver that has seen no header byte, the wire bytes of an upload
      store exactly the uploaded rule, or nothing. */
  lemma UploadOverWire(rx: Rx, b: Board, n: word, cs: seq<Chunk>, first: nat, end: nat)
    requires Inv(rx) && rx.headerBytesSeen == 0 && BoardOk(b)
    requires |Joined(cs)| <= RULE_BUFFER_SIZE && |b.rules| < 0xFF
    ensures var ds := Deliveries(rx, Wires(UploadFrames(n, cs)));
            var stored := n == |Joined(cs)| && RoomFor(first, end, b.rules, Joined(cs));
            && SafeAll(b, ds, first, end)
            && HandleAll(b, ds, first, end).rules == if stored then b.rules + [Joined(cs)] else b.rules
  {
    BackToBack(rx, UploadFrames(n, cs));
    HandleUpload(b, Deliveries(rx, Wires(UploadFrames(n, cs))), n, cs, first, end);
  }

  // ----- The handlers

  class CommandHandler {
    const ruleBuffer: array<byte>
    var ruleBufferIndex: byte
    var ruleSize: word
    var receivingRule: bool
    var responses: seq<Response>
    const manager: RuleStore.NvmRuleManager

    ghost predicate Valid()
      reads this, ruleBuffer, manager, manager.nvm.mem
    {
      && ruleBuffer.Length == RULE_BUFFER_SIZE && ruleBufferIndex <= RULE_BUFFER_SIZE
      && ruleBuffer != manager.nvm.mem
      && manager.Valid()
    }

    ghost function State(): Board
      requires Valid()
      reads this, ruleBuffer, manager, manager.nvm.mem
    {
      Board(ruleBuffer[..], ruleBufferIndex, ruleSize, receivingRule, manager.rules, manager.Saved(), responses)
    }

    constructor (manager: RuleStore.NvmRuleManager)
      requires manager.Valid()
      ensures Valid() && this.manager == manager && fresh(ruleBuffer) && !receivingRule && responses == []
    {
      this.manager := manager;
      ruleBuffer := new byte[RULE_BUFFER_SIZE](_ => 0);
      ruleBufferIndex, ruleSize, receivingRule, responses := 0, 0, false, [];
    }

    /** Hands a received frame to its handler. Frames that only report or that touch the clock
        leave this state alone. */
    method MinFrameReceived(d: Delivery)
      requires Valid() && Safe(State(), d)
      modifies this, ruleBuffer, manager, manager.nvm.mem
      ensures Valid() && State() == Handle(old(State()), d, manager.first, manager.end)
    {
      if d.id == ID_RULE_START {
        HandleRxRuleStart(d);
      } else if d.id == ID_RULE_DATA {
        HandleRxRuleData(d);
      } else if d.id == ID_RULE_END {
        HandleRxRuleEnd();
      } else if d.id == ID_ERASE_ALL_RULES {
        HandleEraseAllRules(d);
      } else if d.id == ID_SAVE_RULES {
        HandleSaveRules();
      }
    }

    method HandleRxRuleStart(d: Delivery)
      requires Valid()
      modifies this
      ensures Valid() && State() == old(State()).(size := UnpackU16(d), index := 0, receiving := true)
    {
      ruleSize := UnpackU16(d);
      ruleBufferIndex := 0;
      receivingRule := true;
    }

    method HandleRxRuleData(d: Delivery)
      requires Valid() && d.id == ID_RULE_DATA && Safe(State(), d)
      modifies this, ruleBuffer
      ensures Valid() && State() == Handle(old(State()), d, manager.first, manager.end)
    {
      if !receivingRule {
        return;
      }
      var frameLength := FrameLength(d.control);
      CopyIn(d, ruleBufferIndex, frameLength);
      ruleBufferIndex := ruleBufferIndex + frameLength;
    }

    method CopyIn(d: Delivery, at: nat, n: nat)
      requires at + n <= ruleBuffer.Length && n <= MAX_PAYLOAD
      modifies ruleBuffer
      ensures ruleBuffer[..] == old(ruleBuffer[..at]) + d.buf[..n] + old(ruleBuffer[at + n..])
    {
      forall k | 0 <= k < n {
        ruleBuffer[at + k] := d.buf[k];
      }
    }

    method HandleRxRuleEnd()
      requires Valid() && |manager.rules| < 0xFF
      modifies this, manager, manager.nvm.mem
      ensures Valid()
      ensures State() == EndRule(old(State()), manager.first, manager.end)
    {
      if !receivingRule || ruleBufferIndex as int != ruleSize as int {
        responses := responses + [Nak];
        receivingRule := false;
        return;
      }
      receivingRule := false;
      var status, id := manager.AddNewRule(ruleBuffer, ruleBufferIndex);
      if status != RuleStore.Ok {
        responses := responses + [Nak];
        return;
      }
      responses := responses + [Ack];
    }

    method HandleSaveRules()
      requires Valid() && |manager.rules| < 0xFF
      modifies this, manager.nvm.mem
      ensures Valid()
      ensures State() == SaveRules(old(State()))
    {
      if receivingRule {
        responses := responses + [Nak];
        return;
      }
      manager.SaveRuleCountToNvm();
      responses := responses + [Ack];
    }

    method HandleEraseAllRules(d: Delivery)
      requires Valid() && d.id == ID_ERASE_ALL_RULES
      modifies this, manager, manager.nvm.mem
      ensures Valid() && State() == Handle(old(State()), d, manager.first, manager.end)
    {
      var safetyByte1, safetyByte2 := UnpackU8(d, 0), UnpackU8(d, 1);
      if safetyByte1 == 0x5D && safetyByte2 == 0x92 {
        manager.ClearRules();
        responses := responses + [Ack];
      } else {
        responses := responses + [Nak];
      }
    }
  }

  /** Feeds the waiting bytes to the receiver, which hands every completed frame to the
      handlers before it takes the next byte. */
  method PollRxBytes(receiver: Receiver, handler: CommandHandler, input: seq<byte>)
    requires receiver.Valid() && handler.Valid()
    requires receiver.frameBuf != handler.ruleBuffer && receiver.frameBuf != handler.manager.nvm.mem
    requires SafeAll(handler.State(), Deliveries(receiver.State(), input), handler.manager.first, handler.manager.end)
    modifies receiver, receiver.frameBuf, handler, handler.ruleBuffer, handler.manager, handler.manager.nvm.mem
    ensures receiver.Valid() && handler.Valid()
    ensures receiver.State() == Run(old(receiver.State()), input)
    ensures handler.State() == HandleAll(old(handler.State()), Deliveries(old(receiver.State()), input),
                                         handler.manager.first, handler.manager.end)
  {
    var rest := input;
    ghost var first, end := handler.manager.first, handler.manager.end;
    while rest != []
      invariant receiver.Valid() && handler.Valid()
      invariant SafeAll(handler.State(), Deliveries(receiver.State(), rest), first, end)
      invariant Run(receiver.State(), rest) == Run(old(receiver.State()), input)
      invariant HandleAll(handler.State(), Deliveries(receiver.State(), rest), first, end)
             == HandleAll(old(handler.State()), Deliveries(old(receiver.State()), input), first, end)
    {
      ghost var out, later := Output(receiver.State(), rest[0]), Deliveries(Step(receiver.State(), rest[0]), rest[1..]);
      HandleAllAppend(handler.State(), out, later, first, end);
      var count := |receiver.delivered|;
      receiver.RxByte(rest[0]);
      if |receiver.delivered| > count {
        HandleOne(handler.State(), out[0], first, end);
        handler.MinFrameReceived(receiver.delivered[count]);
      }
      rest := rest[1..];
    }
  }
}
