/** Saving and erasing the rules from the line: what is saved is what a later power-up finds. */
module Commands {
  import opened Bytes
  import opened MinWire
  import opened MinReceiver
  import opened RuleLayout
  import opened Upload
  import RuleStore

  // ----- The frames

  function SaveFrame(): Frame {
    RawFrame(0x0C, 0, [])
  }

  function EraseFrame(x: byte, y: byte): Frame {
    RawFrame(0x09, 2, [x, y])
  }

  lemma StartFrameBytes(n: word)
    ensures StartFrame(n).id == 0x03 && StartFrame(n).payload == [n / 0x100, n % 0x100]
  {
  }

  lemma OneFrame(rx: Rx, f: Frame) returns (d: Delivery)
    requires Inv(rx) && rx.headerBytesSeen == 0
    ensures Deliveries(rx, Wire(f)) == [d] && Received(d) == f
  {
    RoundTrip(rx, f);
    d := Deliveries(rx, Wire(f))[0];
  }

  // ----- One command

  lemma SaveHandled(b: Board, d: Delivery, first: nat, end: nat)
    requires BoardOk(b) && Received(d) == SaveFrame() && |b.rules| < 0xFF
    ensures Safe(b, d)
    ensures !b.receiving ==> Handle(b, d, first, end) == b.(saved := b.rules, responses := b.responses + [Ack])
    ensures b.receiving ==> Handle(b, d, first, end) == b.(responses := b.responses + [Nak])
  {
  }

  /** Whatever frame with that number comes: it takes the two right bytes to erase the rules, and a control
      byte of at least two. */
  lemma EraseHandled(b: Board, d: Delivery, first: nat, end: nat)
    requires BoardOk(b) && d.id == 0x09
    ensures Safe(b, d)
    ensures Handle(b, d, first, end) ==
            if d.control >= 2 && d.buf[0] == 0x5D && d.buf[1] == 0x92
            then b.(rules := [], saved := [], responses := b.responses + [Ack])
            else b.(responses := b.responses + [Nak])
  {
  }

  /** An upload announces its length with two bytes, and without them a length of none. */
  lemma StartHandled(b: Board, d: Delivery, first: nat, end: nat)
    requires BoardOk(b) && d.id == 0x03
    ensures Safe(b, d)
    ensures var n: int := if d.control >= 2 then 0x100 * (d.buf[0] as int) + d.buf[1] else 0;
            Handle(b, d, first, end) == b.(size := n, index := 0, receiving := true)
  {
  }

  /** Erasing from the line: both bytes right empties the rules, saved ones too, and anything else
      leaves them alone. */
  lemma EraseOverWire(rx: Rx, b: Board, x: byte, y: byte, first: nat, end: nat)
    requires Inv(rx) && rx.headerBytesSeen == 0 && BoardOk(b)
    ensures var ds := Deliveries(rx, Wire(EraseFrame(x, y)));
            && SafeAll(b, ds, first, end)
            && var r := HandleAll(b, ds, first, end);
            if x == 0x5D && y == 0x92 then r.rules == [] && r.saved == [] && r.responses == b.responses + [Ack]
            else r == b.(responses := b.responses + [Nak])
  {
    var d := OneFrame(rx, EraseFrame(x, y));
    assert d.buf[0] == Received(d).payload[0] && d.buf[1] == Received(d).payload[1];
    EraseHandled(b, d, first, end);
    HandleOne(b, d, first, end);
  }

  /** Frames that carry no command about rules, and data that no upload has announced, change nothing. */
  lemma Ignored(b: Board, d: Delivery, first: nat, end: nat)
    requires BoardOk(b) && d.id !in {0x03, 0x05, 0x09, 0x0C} && (d.id == 0x04 ==> !b.receiving)
    ensures Safe(b, d) && Handle(b, d, first, end) == b
  {
  }

  lemma EndWithoutStart(b: Board, d: Delivery, first: nat, end: nat)
    requires BoardOk(b) && d.id == 0x05 && !b.receiving && |b.rules| < 0xFF
    ensures Safe(b, d) && Handle(b, d, first, end) == b.(responses := b.responses + [Nak])
  {
  }

  // ----- Upload and save

  lemma DeliveredInTwo(rx: Rx, fs: seq<Frame>, f: Frame) returns (ds: seq<Delivery>, d: Delivery)
    requires Inv(rx) && rx.headerBytesSeen == 0
    ensures Deliveries(rx, Wires(fs + [f])) == ds + [d] && ReceivedAll(ds) == fs && Received(d) == f
  {
    BackToBack(rx, fs + [f]);
    var all, n := Deliveries(rx, Wires(fs + [f])), |fs|;
    ReceivedLength(all);
    ds, d := all[..n], all[n];
    ReceivedLength(ds);
    assert (fs + [f])[..n] == fs;
    forall i | 0 <= i < n
      ensures ReceivedAll(ds)[i] == fs[i]
    {
      assert ReceivedAll(all)[i] == fs[i];
    }
  }

  /** From the line: an upload and then a save leave saved exactly the rules there are, the uploaded one
      among them if it was stored, and answer both. */
  lemma SaveOverWire(rx: Rx, b: Board, n: word, cs: seq<Chunk>, first: nat, end: nat)
    requires Inv(rx) && rx.headerBytesSeen == 0 && BoardOk(b)
    requires |Joined(cs)| <= RULE_BUFFER_SIZE && |b.rules| < 0xFE
    ensures var ds := Deliveries(rx, Wires(UploadFrames(n, cs) + [SaveFrame()]));
            var stored := n == |Joined(cs)| && RoomFor(first, end, b.rules, Joined(cs));
            && SafeAll(b, ds, first, end)
            && var r := HandleAll(b, ds, first, end);
            && r.saved == r.rules == (if stored then b.rules + [Joined(cs)] else b.rules)
            && r.responses == b.responses + [if stored then Ack else Nak, Ack] && !r.receiving
  {
    var ds, d := DeliveredInTwo(rx, UploadFrames(n, cs), SaveFrame());
    HandleUpload(b, ds, n, cs, first, end);
    var u := HandleAll(b, ds, first, end);
    SaveHandled(u, d, first, end);
    HandleOne(u, d, first, end);
    HandleAllAppend(b, ds, [d], first, end);
  }

  /** During an upload a save is refused, and saves nothing. */
  lemma SaveRefusedOverWire(rx: Rx, b: Board, n: word, cs: seq<Chunk>, first: nat, end: nat)
    requires Inv(rx) && rx.headerBytesSeen == 0 && BoardOk(b)
    requires |Joined(cs)| <= RULE_BUFFER_SIZE && |b.rules| < 0xFF
    ensures var ds := Deliveries(rx, Wires([StartFrame(n)] + DataFrames(cs) + [SaveFrame()]));
            && SafeAll(b, ds, first, end)
            && var r := HandleAll(b, ds, first, end);
            r.saved == b.saved && r.rules == b.rules && r.responses == b.responses + [Nak] && r.receiving
  {
    var ds, d := DeliveredInTwo(rx, [StartFrame(n)] + DataFrames(cs), SaveFrame());
    Uploading(b, ds, n, cs, first, end);
    var u := HandleAll(b, ds, first, end);
    SaveHandled(u, d, first, end);
    HandleOne(u, d, first, end);
    HandleAllAppend(b, ds, [d], first, end);
  }

  lemma Uploading(b: Board, ds: seq<Delivery>, n: word, cs: seq<Chunk>, first: nat, end: nat)
    requires BoardOk(b) && ReceivedAll(ds) == [StartFrame(n)] + DataFrames(cs) && |Joined(cs)| <= RULE_BUFFER_SIZE
    ensures SafeAll(b, ds, first, end)
    ensures var r := HandleAll(b, ds, first, end);
            r == b.(buffer := r.buffer, index := |Joined(cs)|, size := n, receiving := true)
  {
    ReceivedLength(ds);
    ReceivedTail(ds);
    assert ([StartFrame(n)] + DataFrames(cs))[1..] == DataFrames(cs);
    HandleStart(b, ds[0], n, first, end);
    var u := Handle(b, ds[0], first, end);
    HandleChunks(u, ds[1..], cs, first, end);
  }

  // ----- Power-up

  /** An upload and a save, byte by byte, and then a power-up: the rules found are those stored, the
      uploaded one among them. */
  method UploadSaveRestart(receiver: Receiver, handler: CommandHandler, n: word, cs: seq<Chunk>)
      returns (again: RuleStore.NvmRuleManager)
    requires receiver.Valid() && handler.Valid() && receiver.headerBytesSeen == 0
    requires receiver.frameBuf != handler.ruleBuffer && receiver.frameBuf != handler.manager.nvm.mem
    requires |Joined(cs)| <= RULE_BUFFER_SIZE && |handler.manager.rules| < 0xFE
    modifies receiver, receiver.frameBuf, handler, handler.ruleBuffer, handler.manager, handler.manager.nvm.mem
    ensures again.Valid() && again.nvm == handler.manager.nvm
    ensures var m := handler.manager;
            var stored := n == |Joined(cs)| && RoomFor(m.first, m.end, old(m.rules), Joined(cs));
            again.rules == if stored then old(m.rules) + [Joined(cs)] else old(m.rules)
  {
    ghost var b, m := handler.State(), handler.manager;
    SaveOverWire(receiver.State(), b, n, cs, m.first, m.end);
    PollRxBytes(receiver, handler, Wires(UploadFrames(n, cs) + [SaveFrame()]));
    assert handler.State().saved == handler.manager.Saved();
    again := handler.manager.PowerUp();
  }
}
