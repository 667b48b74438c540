/** MIN layer 1, sending side: frames, byte stuffing and the transmitter. */
module MinWire {
  import opened Bytes
  import Fletcher

  const HEADER_BYTE: byte := 0xAA
  const STUFF_BYTE: byte := 0x55
  const EOF_BYTE: byte := 0x55
  const MAX_FRAME_SIZE := 33
  const MAX_PAYLOAD := 15

  /** The bottom four bits of a control byte. */
  function FrameLength(control: byte): nat {
    control % 0x10
  }

  datatype RawFrame = RawFrame(id: byte, control: byte, payload: seq<byte>)

  /** A frame whose payload is as long as its control byte says. */
  type Frame = f: RawFrame | |f.payload| == FrameLength(f.control) witness RawFrame(0, 0, [])

  function Message(f: Frame): seq<byte> {
    [f.id, f.control] + f.payload
  }

  function Body(f: Frame): (r: seq<byte>)
    ensures |r| == FrameLength(f.control) + 4
  {
    var c := Fletcher.Checksum(Message(f));
    Message(f) + [c.0, c.1]
  }

  /** How far the transmitter counts before it must insert a stuff byte. */
  function NextCountdown(countdown: nat, b: byte): nat
    requires 1 <= countdown <= 2
  {
    if b == HEADER_BYTE && countdown == 2 then 1 else 2
  }

  function StuffedByte(countdown: nat, b: byte): seq<byte>
    requires 1 <= countdown <= 2
  {
    if b == HEADER_BYTE && countdown == 1 then [b, STUFF_BYTE] else [b]
  }

  function Stuff(body: seq<byte>, countdown: nat): seq<byte>
    requires 1 <= countdown <= 2
    decreases body
  {
    if body == [] then []
    else StuffedByte(countdown, body[0]) + Stuff(body[1..], NextCountdown(countdown, body[0]))
  }

  function FinalCountdown(body: seq<byte>, countdown: nat): (r: nat)
    requires 1 <= countdown <= 2
    ensures 1 <= r <= 2
    decreases body
  {
    if body == [] then countdown else FinalCountdown(body[1..], NextCountdown(countdown, body[0]))
  }

  const HEADER: seq<byte> := [HEADER_BYTE, HEADER_BYTE, HEADER_BYTE]

  function Wire(f: Frame): seq<byte> {
    HEADER + Stuff(Body(f), 2) + [EOF_BYTE]
  }

  function Wires(fs: seq<Frame>): seq<byte> {
    if fs == [] then [] else Wire(fs[0]) + Wires(fs[1..])
  }

  // ----- The form of the stuffed bytes

  /** A stuff byte costs two header bytes, one of which may have been counted already. */
  lemma {:induction false} StuffLength(body: seq<byte>, countdown: nat)
    requires 1 <= countdown <= 2
    ensures |body| <= |Stuff(body, countdown)| <= |body| + (|body| + 2 - countdown) / 2
    decreases body
  {
    if body != [] {
      StuffLength(body[1..], NextCountdown(countdown, body[0]));
    }
  }

  /** The longest frame fits the space that the transmitter asks for. */
  lemma WireLength(f: Frame)
    ensures var n := 4 + |f.payload|;
            3 + n + 1 <= |Wire(f)| <= 3 + n + n / 2 + 1 <= 32 < MAX_FRAME_SIZE
  {
    StuffLength(Body(f), 2);
  }

  /** A pair of header bytes at i is followed by a stuff byte. */
  predicate PairIsStuffed(s: seq<byte>, i: nat) {
    i + 1 < |s| && s[i] == HEADER_BYTE && s[i + 1] == HEADER_BYTE ==> i + 2 < |s| && s[i + 2] == STUFF_BYTE
  }

  /** The header byte the transmitter has already counted, and what it sends after it. */
  function Counted(countdown: nat, w: seq<byte>): seq<byte> {
    (if countdown == 1 then [HEADER_BYTE] else []) + w
  }

  lemma {:induction false} StuffIsWellStuffed(body: seq<byte>, countdown: nat)
    requires 1 <= countdown <= 2
    ensures forall i: nat :: PairIsStuffed(Counted(countdown, Stuff(body, countdown)), i)
    decreases body
  {
    var s := Counted(countdown, Stuff(body, countdown));
    if body != [] {
      var next := NextCountdown(countdown, body[0]);
      var t := Counted(next, Stuff(body[1..], next));
      StuffIsWellStuffed(body[1..], next);
      var d := |s| - |t|;
      assert s[d..] == t;
      forall i: nat
        ensures PairIsStuffed(s, i)
      {
        if i >= d {
          assert PairIsStuffed(t, i - d);
        }
      }
    }
  }

  /** After the three header bytes of a frame, every pair of header bytes is followed by a stuff
      byte, so no three of them follow one another before the end of the frame. */
  lemma WireForm(f: Frame)
    ensures Wire(f)[..3] == HEADER
    ensures forall i: nat :: i >= 3 ==> PairIsStuffed(Wire(f), i)
    ensures forall i: nat :: 3 <= i < |Wire(f)| - 2 ==>
              !(Wire(f)[i] == Wire(f)[i + 1] == Wire(f)[i + 2] == HEADER_BYTE)
  {
    var w, s := Wire(f), Stuff(Body(f), 2);
    StuffIsWellStuffed(Body(f), 2);
    assert Counted(2, s) == s;
    forall i: nat | i >= 3
      ensures PairIsStuffed(w, i)
    {
      FramedPair(s, w, i);
    }
    forall i: nat | 3 <= i < |w| - 2
      ensures !(w[i] == w[i + 1] == w[i + 2] == HEADER_BYTE)
    {
      assert PairIsStuffed(w, i);
    }
  }

  lemma FramedPair(s: seq<byte>, w: seq<byte>, i: nat)
    requires w == HEADER + s + [EOF_BYTE] && i >= 3 && PairIsStuffed(s, i - 3)
    ensures PairIsStuffed(w, i)
  {
    if i + 1 < 3 + |s| {
      assert w[i] == s[i - 3] && w[i + 1] == s[i - 2];
      assert i + 2 < 3 + |s| ==> w[i + 2] == s[i - 1];
    }
  }

  // ----- The transmitter

  class Transmitter {
    var sums: Fletcher.Sums
    var headerByteCountdown: byte
    /** Everything handed to the byte queue so far. */
    var sent: seq<byte>

    constructor ()
      ensures sent == []
    {
      sums := Fletcher.Sums(0, 0);
      headerByteCountdown := 0;
      sent := [];
    }

    method TxByte(b: byte)
      modifies this`sent
      ensures sent == old(sent) + [b]
    {
      sent := sent + [b];
    }

    /** The stuffed form of `prefix` has been sent since `start`, and `prefix` summed. */
    ghost predicate SentSoFar(start: seq<byte>, prefix: seq<byte>)
      reads this
    {
      sent == start + Stuff(prefix, 2) && headerByteCountdown == FinalCountdown(prefix, 2)
    }

    ghost predicate Summed(prefix: seq<byte>)
      reads this
    {
      sums == Fletcher.Run(Fletcher.INITIAL, prefix)
    }

    method StuffedTxByte(b: byte, ghost start: seq<byte>, ghost prefix: seq<byte>)
      requires SentSoFar(start, prefix)
      modifies this
      ensures SentSoFar(start, prefix + [b])
      ensures old(Summed(prefix)) ==> Summed(prefix + [b])
    {
      StuffPrefixGrows(prefix, b);
      TxByte(b);
      sums := Fletcher.Step(sums, b);
      if b == HEADER_BYTE {
        headerByteCountdown := headerByteCountdown - 1;
        if headerByteCountdown == 0 {
          TxByte(STUFF_BYTE);
          headerByteCountdown := 2;
        }
      } else {
        headerByteCountdown := 2;
      }
    }

    /** Sends the whole frame or, without a host or without room for the longest frame, nothing. */
    method TxFrame(id: byte, payload: array<byte>, control: byte, enumerated: bool, space: byte)
      requires FrameLength(control) <= payload.Length
      modifies this
      ensures var f := RawFrame(id, control, payload[..FrameLength(control)]);
              sent == old(sent) + if enumerated && space >= MAX_FRAME_SIZE then Wire(f) else []
    {
      if !enumerated {
        return;
      }
      if space < MAX_FRAME_SIZE {
        return;
      }
      ghost var f: Frame := RawFrame(id, control, payload[..FrameLength(control)]);
      TxWholeFrame(id, payload, control, f);
    }

    method TxWholeFrame(id: byte, payload: array<byte>, control: byte, ghost f: Frame)
      requires FrameLength(control) <= payload.Length && f == RawFrame(id, control, payload[..FrameLength(control)])
      modifies this
      ensures sent == old(sent) + Wire(f)
    {
      ghost var start := sent + HEADER;
      TxHeader();
      TxMessage(id, payload, control, start);
      assert Message(f) == [id, control] + payload[..FrameLength(control)];
      TxChecksum(start, f);
      ghost var body := Stuff(Body(f), 2);
      TxByte(EOF_BYTE);
      assert start + body + [EOF_BYTE] == old(sent) + (HEADER + body + [EOF_BYTE]);
    }

    method TxHeader()
      modifies this
      ensures SentSoFar(old(sent) + HEADER, []) && Summed([])
    {
      headerByteCountdown := 2;
      sums := Fletcher.INITIAL;
      TxByte(HEADER_BYTE);
      TxByte(HEADER_BYTE);
      TxByte(HEADER_BYTE);
    }

    method TxMessage(id: byte, payload: array<byte>, control: byte, ghost start: seq<byte>)
      requires FrameLength(control) <= payload.Length
      requires SentSoFar(start, []) && Summed([])
      modifies this
      ensures var m := [id, control] + payload[..FrameLength(control)]; SentSoFar(start, m) && Summed(m)
    {
      var length := FrameLength(control);
      ghost var m := [id, control] + payload[..length];
      StuffedTxByte(id, start, []);
      StuffedTxByte(control, start, [] + [id]);
      assert [] + [id] + [control] == m[..2];
      var n, i := length, 0;
      while n > 0
        invariant 0 <= n <= length && i == length - n
        invariant SentSoFar(start, m[..2 + i]) && Summed(m[..2 + i])
      {
        StuffedTxByte(payload[i], start, m[..2 + i]);
        assert m[..2 + i] + [payload[i]] == m[..2 + (i + 1)];
        n, i := n - 1, i + 1;
      }
      assert m[..2 + length] == m;
    }

    method TxChecksum(ghost start: seq<byte>, ghost f: Frame)
      requires SentSoFar(start, Message(f)) && Summed(Message(f))
      modifies this
      ensures sent == start + Stuff(Body(f), 2)
    {
      BodyFromSums(f, sums);
      sums := Fletcher.Finalize(sums);
      var high, low := Fletcher.High(sums), Fletcher.Low(sums);
      StuffedTxByte(high, start, Message(f));
      StuffedTxByte(low, start, Message(f) + [high]);
    }
  }

  lemma BodyFromSums(f: Frame, s: Fletcher.Sums)
    requires s == Fletcher.Run(Fletcher.INITIAL, Message(f))
    ensures var t := Fletcher.Finalize(s); Message(f) + [Fletcher.High(t)] + [Fletcher.Low(t)] == Body(f)
  {
  }

  lemma StuffPrefixGrows(prefix: seq<byte>, b: byte)
    ensures Stuff(prefix + [b], 2) == Stuff(prefix, 2) + StuffedByte(FinalCountdown(prefix, 2), b)
    ensures FinalCountdown(prefix + [b], 2) == NextCountdown(FinalCountdown(prefix, 2), b)
    ensures Fletcher.Run(Fletcher.INITIAL, prefix + [b]) == Fletcher.Step(Fletcher.Run(Fletcher.INITIAL, prefix), b)
  {
    StuffSnoc(prefix, 2, b);
    Fletcher.RunAppend(Fletcher.INITIAL, prefix, [b]);
    Fletcher.RunOne(Fletcher.Run(Fletcher.INITIAL, prefix), b);
  }

  lemma {:induction false} StuffSnoc(prefix: seq<byte>, countdown: nat, b: byte)
    requires 1 <= countdown <= 2
    ensures Stuff(prefix + [b], countdown) == Stuff(prefix, countdown) + StuffedByte(FinalCountdown(prefix, countdown), b)
    ensures FinalCountdown(prefix + [b], countdown) == NextCountdown(FinalCountdown(prefix, countdown), b)
    decreases prefix
  {
    if prefix == [] {
      assert [] + [b] == [b];
      assert [b][1..] == [];
    } else {
      var next := NextCountdown(countdown, prefix[0]);
      assert (prefix + [b])[1..] == prefix[1..] + [b];
      StuffSnoc(prefix[1..], next, b);
      StuffedInOrder(StuffedByte(countdown, prefix[0]), Stuff(prefix[1..], next),
                     StuffedByte(FinalCountdown(prefix[1..], next), b));
    }
  }

  lemma StuffedInOrder(x: seq<byte>, y: seq<byte>, z: seq<byte>)
    ensures x + (y + z) == x + y + z
  {
  }
}
