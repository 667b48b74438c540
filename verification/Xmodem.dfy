/** The boot loader's XMODEM transfer: sender, receiver, and the transfer from one to the other. */
module Xmodem {
  import opened Crc

  // Bytes on the line, high bit first.
  const SOH: Octet := [false, false, false, false, false, false, false, true]  // 0x01
  const EOT: Octet := [false, false, false, false, false, true, false, false]  // 0x04
  const ACK: Octet := [false, false, false, false, false, true, true, false]   // 0x06
  const NAK: Octet := [false, false, false, true, false, true, false, true]    // 0x15
  const CAN: Octet := [false, false, false, true, true, false, false, false]   // 0x18
  const LETTER_C: Octet := [false, true, false, false, false, false, true, true]
  const LETTER_Q: Octet := [false, true, true, true, false, false, false, true]
  const ZERO: Octet := Zeros(8)
  const FIRST_NUMBER: Octet := [false, false, false, false, false, false, false, true]

  const PKTLEN := 128
  const MAX_TIMEOUTS := 100

  // ----- Packet numbers

  function Invert(o: Octet): (r: Octet)
    ensures forall i :: 0 <= i < 8 ==> r[i] != o[i]
  {
    Xor(o, seq(8, _ => true))
  }

  /** Adds one and drops the carry out of the top. */
  function Increment(bits: seq<bool>): (r: seq<bool>)
    ensures |r| == |bits|
  {
    if bits == [] then []
    else
      var n := |bits| - 1;
      if bits[n] then Increment(bits[..n]) + [false] else bits[..n] + [true]
  }

  function Value(bits: seq<bool>): nat {
    if bits == [] then 0
    else 2 * Value(bits[..|bits| - 1]) + if bits[|bits| - 1] then 1 else 0
  }

  function Power2(n: nat): (r: nat)
    ensures r > 0
  {
    if n == 0 then 1 else 2 * Power2(n - 1)
  }

  /** Packet numbers count up and wrap around at 256. */
  lemma {:induction false} IncrementCounts(bits: seq<bool>)
    ensures Value(bits) < Power2(|bits|)
    ensures Value(Increment(bits)) == if Value(bits) + 1 == Power2(|bits|) then 0 else Value(bits) + 1
    decreases |bits|
  {
    if bits != [] {
      var n := |bits| - 1;
      IncrementCounts(bits[..n]);
      if bits[n] {
        assert (Increment(bits[..n]) + [false])[..n] == Increment(bits[..n]);
      } else {
        assert (bits[..n] + [true])[..n] == bits[..n];
      }
    }
  }

  function CrcOf(d: seq<Octet>): Register {
    Of(d, Zeros(16))
  }

  /** The CRC as received, high byte first. */
  function CrcFrom(high: Octet, low: Octet): Register {
    high + low
  }

  // ----- The sender's bytes

  function Min(x: int, y: int): int {
    if x < y then x else y
  }

  function Less(size: nat): nat {
    if size < PKTLEN then 0 else size - PKTLEN
  }

  /** The 128 data bytes of a packet: what is left of the data, then zeros. */
  function PacketData(data: seq<Octet>, at: nat, size: nat): (r: seq<Octet>)
    requires size == 0 || at + size <= |data|
    ensures |r| == PKTLEN
    ensures forall i :: 0 <= i < PKTLEN ==> r[i] == if i < size then data[at + i] else ZERO
  {
    seq(PKTLEN, i requires 0 <= i < PKTLEN => if i < size then data[at + i] else ZERO)
  }

  function Packet(d: seq<Octet>, sno: Octet): seq<Octet> {
    [SOH, sno, Invert(sno)] + d + [High(CrcOf(d)), Low(CrcOf(d))]
  }

  /** What is sent once the receiver has asked for data: `left` packets are still to be accepted,
      `size` counts the data bytes not yet sent for the first time, and every reply other than
      ACK has the same packet number sent again. */
  function Sending(data: seq<Octet>, at: nat, size: nat, sno: Octet, left: nat, replies: seq<Octet>): seq<Octet>
    requires left > 0 && (size == 0 || at + size <= |data|)
    decreases |replies|
  {
    Packet(PacketData(data, at, size), sno) +
    if replies == [] then []
    else if replies[0] == ACK then
      if left == 1 then [EOT]
      else Sending(data, at + PKTLEN, Less(size), Increment(sno), left - 1, replies[1..])
    else Sending(data, at, Less(size), sno, left, replies[1..])
  }

  /** The replies that are read: up to the last acknowledgement, and one byte after it. */
  function RepliesUsed(left: nat, replies: seq<Octet>): (r: nat)
    requires left > 0
    ensures r <= |replies|
    decreases |replies|
  {
    if replies == [] then 0
    else if replies[0] == ACK && left == 1 then Min(2, |replies|)
    else 1 + RepliesUsed(if replies[0] == ACK then left - 1 else left, replies[1..])
  }

  predicate Finishes(left: nat, replies: seq<Octet>)
    requires left > 0
    decreases |replies|
  {
    replies != [] &&
    if replies[0] == ACK && left == 1 then |replies| >= 2
    else Finishes(if replies[0] == ACK then left - 1 else left, replies[1..])
  }

  /** `n` packets hold `length` bytes, and fewer do not. */
  predicate Covers(n: nat, length: nat) {
    PKTLEN * (n - 1) < length <= PKTLEN * n
  }

  /** The length, rounded up to whole packets. */
  function Rounded(length: nat): (r: nat)
    ensures r % PKTLEN == 0 && length <= r < length + PKTLEN
  {
    if length % PKTLEN != 0 then (length + PKTLEN) / PKTLEN * PKTLEN else length
  }

  /** The stream when every packet is acknowledged at once. */
  function CleanStream(data: seq<Octet>, at: nat, sno: Octet): seq<Octet>
    decreases |data| - at
  {
    if at >= |data| then [EOT]
    else Packet(PacketData(data, at, |data| - at), sno) + CleanStream(data, at + PKTLEN, Increment(sno))
  }

  function Acks(n: nat): (r: seq<Octet>)
    ensures |r| == n && forall i :: 0 <= i < n ==> r[i] == ACK
  {
    seq(n, _ => ACK)
  }

  lemma {:induction false} SendingAcknowledged(data: seq<Octet>, at: nat, size: nat, sno: Octet, left: nat, replies: seq<Octet>)
    requires size == |data| - at > 0 && Covers(left, size)
    requires left <= |replies| && forall i :: 0 <= i < left ==> replies[i] == ACK
    ensures left > 0 && Sending(data, at, size, sno, left, replies) == CleanStream(data, at, sno)
    decreases left
  {
    if left > 1 {
      CoversLess(left, size);
      SendingAcknowledged(data, at + PKTLEN, Less(size), Increment(sno), left - 1, replies[1..]);
    }
    AcknowledgedOnce(data, at, size, sno, left, replies);
  }

  lemma CoversLess(left: nat, size: nat)
    requires Covers(left, size) && left > 1
    ensures Less(size) == size - PKTLEN > 0 && Covers(left - 1, Less(size))
  {
  }

  lemma AcknowledgedOnce(data: seq<Octet>, at: nat, size: nat, sno: Octet, left: nat, replies: seq<Octet>)
    requires size == |data| - at > 0 && Covers(left, size) && left > 0 && replies != [] && replies[0] == ACK
    requires left > 1 ==>
               var next := CleanStream(data, at + PKTLEN, Increment(sno));
               Sending(data, at + PKTLEN, Less(size), Increment(sno), left - 1, replies[1..]) == next
    ensures Sending(data, at, size, sno, left, replies) == CleanStream(data, at, sno)
  {
    CleanOnce(data, at, size, sno);
    if left == 1 {
      assert CleanStream(data, at + PKTLEN, Increment(sno)) == [EOT];
      assert Sending(data, at, size, sno, left, replies) == Packet(PacketData(data, at, size), sno) + [EOT];
    }
  }

  lemma CleanOnce(data: seq<Octet>, at: nat, size: nat, sno: Octet)
    requires size == |data| - at > 0
    ensures CleanStream(data, at, sno)
         == Packet(PacketData(data, at, size), sno) + CleanStream(data, at + PKTLEN, Increment(sno))
  {
    assert PacketData(data, at, size) == PacketData(data, at, |data| - at);
  }

  lemma CleanEnd(data: seq<Octet>, at: nat, sno: Octet)
    requires at >= |data|
    ensures CleanStream(data, at, sno) == [EOT]
  {
  }

  // ----- The receiver

  datatype Rx = Rx(buf: seq<Octet>, at: nat, size: nat, sno: Octet)

  datatype Outcome = Done | Waiting

  /** Keeps the bytes that still fit the announced length. */
  function Store(s: Rx, bytes: seq<Octet>): (r: Rx)
    requires s.size == 0 || s.at + s.size <= |s.buf|
    ensures |r.buf| == |s.buf|
    ensures r.at == s.at && r.sno == s.sno && r.size == if s.size < |bytes| then 0 else s.size - |bytes|
    ensures forall i :: 0 <= i < |s.buf| ==>
              r.buf[i] == if s.at <= i < s.at + Min(s.size, |bytes|) then bytes[i - s.at] else s.buf[i]
  {
    var n := Min(s.size, |bytes|);
    if n == 0 then s.(size := if s.size < |bytes| then 0 else s.size - |bytes|)
    else s.(buf := s.buf[..s.at] + bytes[..n] + s.buf[s.at + n..],
            size := if s.size < |bytes| then 0 else s.size - |bytes|)
  }

  /** The packet number and its complement as compared; they are stored, like data, only while
      data is expected, and otherwise are what the stack happened to hold. */
  function Numbers(s: Rx, input: seq<Octet>, stale: nat -> (Octet, Octet)): (Octet, Octet)
    requires |input| >= 3
  {
    if s.size > 0 then (input[1], input[2]) else stale(s.at)
  }

  predicate Acceptable(s: Rx, input: seq<Octet>, stale: nat -> (Octet, Octet))
    requires |input| >= PKTLEN + 5
  {
    && CrcFrom(input[PKTLEN + 3], input[PKTLEN + 4]) == CrcOf(input[3..PKTLEN + 3])
    && Numbers(s, input, stale) == (s.sno, Invert(s.sno))
  }

  predicate RxOk(s: Rx) {
    s.size == 0 || s.at + s.size <= |s.buf|
  }

  /** The whole reception: final state, bytes answered, and whether it came to an end or waits
      for more input. */
  function Receive(s: Rx, input: seq<Octet>, stale: nat -> (Octet, Octet)): (r: (Rx, seq<Octet>, Outcome))
    requires RxOk(s)
    decreases |input|
  {
    if input == [] then (s, [], Waiting)
    else if input[0] == SOH then
      if |input| < PKTLEN + 5 then
        (if |input| < 3 then s else Store(s, input[3..Min(|input|, PKTLEN + 3)]), [], Waiting)
      else
        var t := Store(s, input[3..PKTLEN + 3]);
        if Acceptable(s, input, stale) then
          var (r, out, o) := Receive(t.(at := s.at + PKTLEN, sno := Increment(s.sno)), input[PKTLEN + 5..], stale);
          (r, [ACK] + out, o)
        else (t, [CAN], Done)
    else if input[0] == EOT then (s, [ACK], Done)
    else (s, [], Done)
  }

  /** For any incoming stream at all, only the first `length` bytes of the buffer are written. */
  lemma {:induction false} ReceiveWritesInside(s: Rx, input: seq<Octet>, stale: nat -> (Octet, Octet), length: nat)
    requires RxOk(s) && length <= |s.buf| && (s.size == 0 || s.at + s.size <= length)
    ensures var r := Receive(s, input, stale).0; |r.buf| == |s.buf| && r.buf[length..] == s.buf[length..]
    decreases |input|
  {
    if input != [] && input[0] == SOH && |input| >= PKTLEN + 5 && Acceptable(s, input, stale) {
      var t := Store(s, input[3..PKTLEN + 3]);
      StoresInside(s, input[3..PKTLEN + 3], length);
      ReceiveWritesInside(t.(at := s.at + PKTLEN, sno := Increment(s.sno)), input[PKTLEN + 5..], stale, length);
    }
  }

  lemma StoresInside(s: Rx, bytes: seq<Octet>, length: nat)
    requires RxOk(s) && length <= |s.buf| && (s.size == 0 || s.at + s.size <= length)
    ensures Store(s, bytes).buf[length..] == s.buf[length..]
  {
  }

  /** What answers a packet, from the bytes as they arrive: an acknowledgement if and only if the
      number is the one expected, its complement fits, and the CRC over data and CRC bytes together is
      zero. Otherwise the reception is over with a cancellation. The data is stored either way. */
  lemma FirstReplyIff(s: Rx, a: Octet, b: Octet, d: seq<Octet>, high: Octet, low: Octet, rest: seq<Octet>,
                      stale: nat -> (Octet, Octet))
    requires RxOk(s) && |d| == PKTLEN
    ensures var numbers := if s.size > 0 then (a, b) else stale(s.at);
            var (r, out, o) := Receive(s, [SOH, a, b] + d + [high, low] + rest, stale);
            if numbers == (s.sno, Invert(s.sno)) && Of(d + [high, low], Zeros(16)) == Zeros(16) then out != [] && out[0] == ACK
            else r == Store(s, d) && out == [CAN] && o == Done
  {
    var input := [SOH, a, b] + d + [high, low] + rest;
    PacketParts(a, b, d, high, low, rest, input);
    OwnCrcGivesZero(d, Zeros(16), high, low);
    HighLow(high, low, CrcOf(d));
  }

  lemma PacketParts(a: Octet, b: Octet, d: seq<Octet>, high: Octet, low: Octet, rest: seq<Octet>, input: seq<Octet>)
    requires |d| == PKTLEN && input == [SOH, a, b] + d + [high, low] + rest
    ensures |input| >= PKTLEN + 5 && input[0] == SOH && input[1] == a && input[2] == b && input[3..PKTLEN + 3] == d
    ensures input[PKTLEN + 3] == high && input[PKTLEN + 4] == low && input[PKTLEN + 5..] == rest
  {
  }

  lemma HighLow(high: Octet, low: Octet, x: Register)
    ensures CrcFrom(high, low) == x <==> high == High(x) && low == Low(x)
  {
    assert (high + low)[..8] == high && (high + low)[8..] == low;
    assert x == High(x) + Low(x);
  }

  /** A packet of which one byte or two adjacent bytes of data and CRC have been changed on the way ends
      the reception. */
  lemma DamagedPacketCancels(s: Rx, d: seq<Octet>, i: nat, x: Octet, y: Octet, rest: seq<Octet>, stale: nat -> (Octet, Octet))
    requires RxOk(s) && s.size > 0 && |d| == PKTLEN && i + 1 < PKTLEN + 2
    requires var m := d + [High(CrcOf(d)), Low(CrcOf(d))]; m[i] != x || m[i + 1] != y
    ensures var m := (d + [High(CrcOf(d)), Low(CrcOf(d))])[i := x][i + 1 := y];
            var (r, out, o) := Receive(s, [SOH, s.sno, Invert(s.sno)] + m + rest, stale);
            out == [CAN] && o == Done
  {
    var m := d + [High(CrcOf(d)), Low(CrcOf(d))];
    var m' := m[i := x][i + 1 := y];
    OwnCrcGivesZero(d, Zeros(16), High(CrcOf(d)), Low(CrcOf(d)));
    ChangeDetected(m, i, x, y);
    assert m' == m'[..PKTLEN] + [m'[PKTLEN], m'[PKTLEN + 1]];
    FirstReplyIff(s, s.sno, Invert(s.sno), m'[..PKTLEN], m'[PKTLEN], m'[PKTLEN + 1], rest, stale);
    assert [SOH, s.sno, Invert(s.sno)] + m' + rest
        == [SOH, s.sno, Invert(s.sno)] + m'[..PKTLEN] + [m'[PKTLEN], m'[PKTLEN + 1]] + rest;
  }

  lemma ChangeDetected(m: seq<Octet>, i: nat, x: Octet, y: Octet)
    requires i + 1 < |m| && (m[i] != x || m[i + 1] != y)
    ensures Of(m[i := x][i + 1 := y], Zeros(16)) != Of(m, Zeros(16))
  {
    assert m == m[..i] + [m[i], m[i + 1]] + m[i + 2..];
    assert m[i := x][i + 1 := y] == m[..i] + [x, y] + m[i + 2..];
    AdjacentErrorDetected(m[..i], m[i], m[i + 1], x, y, m[i + 2..], Zeros(16));
  }

  /** Any byte but the start of a packet or the end of the transmission ends the reception without an
      answer. */
  lemma OtherByteEnds(s: Rx, b: Octet, rest: seq<Octet>, stale: nat -> (Octet, Octet))
    requires RxOk(s) && Value(b) != 0x01 && Value(b) != 0x04
    ensures Receive(s, [b] + rest, stale) == (s, [], Done)
  {
    LineBytes();
    assert ([b] + rest)[0] == b && b != SOH && b != EOT;
  }

  /** The bytes on the line. */
  lemma LineBytes()
    ensures Value(SOH) == 0x01 && Value(EOT) == 0x04 && Value(ACK) == 0x06 && Value(NAK) == 0x15 && Value(CAN) == 0x18
    ensures Value(LETTER_C) == 0x43 && Value(LETTER_Q) == 0x71 && Value(FIRST_NUMBER) == 1
  {
    ValueOfOctet(SOH);
    ValueOfOctet(EOT);
    ValueOfOctet(ACK);
    ValueOfOctet(NAK);
    ValueOfOctet(CAN);
    ValueOfOctet(LETTER_C);
    ValueOfOctet(LETTER_Q);
    ValueOfOctet(FIRST_NUMBER);
  }

  function Bit(b: bool, weight: nat): nat {
    if b then weight else 0
  }

  lemma ValueOfOctet(o: Octet)
    ensures Value(o) == Bit(o[0], 128) + Bit(o[1], 64) + Bit(o[2], 32) + Bit(o[3], 16)
                        + Bit(o[4], 8) + Bit(o[5], 4) + Bit(o[6], 2) + Bit(o[7], 1)
  {
    ValueOfHalf(o[..4]);
    ValueOfFour(o, o[..4]);
  }

  lemma ValueOfPrefix(o: seq<bool>, n: nat, m: nat)
    requires m == n + 1 && m <= |o|
    ensures Value(o[..m]) == 2 * Value(o[..n]) + Bit(o[n], 1)
  {
    assert o[..m][..n] == o[..n];
  }

  lemma ValueOfHalf(h: seq<bool>)
    requires |h| == 4
    ensures Value(h) == Bit(h[0], 8) + Bit(h[1], 4) + Bit(h[2], 2) + Bit(h[3], 1)
  {
    ValueOfPrefix(h, 0, 1);
    ValueOfPrefix(h, 1, 2);
    ValueOfPrefix(h, 2, 3);
    ValueOfPrefix(h, 3, 4);
    assert h[..4] == h && h[..0] == [];
  }

  lemma ValueOfFour(o: Octet, h: seq<bool>)
    requires h == o[..4]
    ensures Value(o) == 16 * Value(h) + Bit(o[4], 8) + Bit(o[5], 4) + Bit(o[6], 2) + Bit(o[7], 1)
  {
    ValueOfPrefix(o, 4, 5);
    ValueOfPrefix(o, 5, 6);
    ValueOfPrefix(o, 6, 7);
    ValueOfPrefix(o, 7, 8);
    assert o[..8] == o;
  }

  lemma AcceptsPacket(s: Rx, data: seq<Octet>, rest: seq<Octet>, stale: nat -> (Octet, Octet))
    requires RxOk(s) && 0 < s.size == |data| - s.at
    ensures var input := Packet(PacketData(data, s.at, s.size), s.sno) + rest;
            && |input| >= PKTLEN + 5 && input[0] == SOH && Acceptable(s, input, stale)
            && input[3..PKTLEN + 3] == PacketData(data, s.at, s.size) && input[PKTLEN + 5..] == rest
  {
    var d := PacketData(data, s.at, s.size);
    var input := Packet(d, s.sno) + rest;
    assert input[3..PKTLEN + 3] == d;
    assert CrcFrom(High(CrcOf(d)), Low(CrcOf(d))) == CrcOf(d);
  }

  /** What has been received so far is the beginning of the data. */
  predicate OnTrack(s: Rx, data: seq<Octet>) {
    && RxOk(s) && |data| <= |s.buf|
    && (if s.at < |data| then s.size == |data| - s.at else s.size == 0)
    && s.buf[..Min(s.at, |data|)] == data[..Min(s.at, |data|)]
  }

  function AfterPacket(s: Rx, data: seq<Octet>): Rx
    requires OnTrack(s, data)
  {
    Store(s, PacketData(data, s.at, s.size)).(at := s.at + PKTLEN, sno := Increment(s.sno))
  }

  lemma AfterPacketOnTrack(s: Rx, data: seq<Octet>)
    requires OnTrack(s, data) && s.at < |data|
    ensures OnTrack(AfterPacket(s, data), data)
    ensures |AfterPacket(s, data).buf| == |s.buf| && AfterPacket(s, data).buf[|data|..] == s.buf[|data|..]
  {
    StoredSoFar(s, data, PacketData(data, s.at, s.size));
  }

  lemma ReceiveOnePacket(s: Rx, data: seq<Octet>, stale: nat -> (Octet, Octet))
    requires OnTrack(s, data) && s.at < |data|
    requires OnTrack(AfterPacket(s, data), data)
    ensures var rest := Receive(AfterPacket(s, data), CleanStream(data, s.at + PKTLEN, Increment(s.sno)), stale);
            Receive(s, CleanStream(data, s.at, s.sno), stale) == (rest.0, [ACK] + rest.1, rest.2)
  {
    AcceptsPacket(s, data, CleanStream(data, s.at + PKTLEN, Increment(s.sno)), stale);
  }

  /** The acknowledged stream fills the buffer with exactly the data. */
  lemma {:induction false} ReceiveClean(s: Rx, data: seq<Octet>, left: nat, stale: nat -> (Octet, Octet))
    requires OnTrack(s, data) && if s.at < |data| then Covers(left, |data| - s.at) else left == 0
    ensures var (r, out, o) := Receive(s, CleanStream(data, s.at, s.sno), stale);
            r.buf == data + s.buf[|data|..] && out == Acks(left + 1) && o == Done
    decreases left
  {
    if s.at >= |data| {
      ReceiveEnd(s, data, stale);
    } else {
      var t := AfterPacket(s, data);
      AfterPacketOnTrack(s, data);
      ReceiveOnePacket(s, data, stale);
      ReceiveClean(t, data, left - 1, stale);
      OneMoreAck(left);
    }
  }

  lemma OneMoreAck(n: nat)
    ensures [ACK] + Acks(n) == Acks(n + 1)
  {
  }

  lemma ReceiveEnd(s: Rx, data: seq<Octet>, stale: nat -> (Octet, Octet))
    requires OnTrack(s, data) && s.at >= |data|
    ensures Receive(s, CleanStream(data, s.at, s.sno), stale) == (s, Acks(1), Done)
    ensures s.buf == data + s.buf[|data|..]
  {
    CleanEnd(data, s.at, s.sno);
    ReceiveEot(s, stale);
    BufferAtEnd(s, data);
  }

  lemma BufferAtEnd(s: Rx, data: seq<Octet>)
    requires OnTrack(s, data) && s.at >= |data|
    ensures s.buf == data + s.buf[|data|..]
  {
    assert s.buf == s.buf[..|data|] + s.buf[|data|..];
  }

  lemma ReceiveEot(s: Rx, stale: nat -> (Octet, Octet))
    requires RxOk(s)
    ensures Receive(s, [EOT], stale) == (s, Acks(1), Done)
  {
    assert EOT[7] != SOH[7];
    assert Acks(1) == [ACK];
  }

  lemma StoredSoFar(s: Rx, data: seq<Octet>, d: seq<Octet>)
    requires RxOk(s) && |data| <= |s.buf| && 0 < s.size == |data| - s.at
    requires s.buf[..s.at] == data[..s.at] && d == PacketData(data, s.at, s.size)
    ensures var n := Min(s.at + PKTLEN, |data|); Store(s, d).buf[..n] == data[..n]
  {
    var n, r := Min(s.at + PKTLEN, |data|), Store(s, d).buf;
    forall i | 0 <= i < n
      ensures r[i] == data[i]
    {
      if i < s.at {
        assert s.buf[..s.at][i] == data[..s.at][i];
      }
    }
  }

  /** The whole transfer, both ends: with as many acknowledgements as the receiver gives, the
      sender sends one stream; with that stream the receiver gives those acknowledgements, comes
      to an end, and its buffer begins with exactly the data, the rest of it untouched. */
  lemma Transfer(data: seq<Octet>, n: nat, buf: seq<Octet>, stale: nat -> (Octet, Octet))
    requires 1 <= |data| <= 0xFFFF && |data| <= |buf| && Covers(n, |data|)
    ensures n > 0 && Finishes(n, Acks(n + 1)) && RepliesUsed(n, Acks(n + 1)) == n + 1
    ensures var stream := Sending(data, 0, |data|, FIRST_NUMBER, n, Acks(n + 1));
            var (r, replies, o) := Receive(Rx(buf, 0, |data|, FIRST_NUMBER), stream, stale);
            r.buf == data + buf[|data|..] && replies == Acks(n + 1) && o == Done
  {
    SendingAcknowledged(data, 0, |data|, FIRST_NUMBER, n, Acks(n + 1));
    FirstTransfer(data, n, buf, stale, Sending(data, 0, |data|, FIRST_NUMBER, n, Acks(n + 1)));
    AcksFinish(n);
  }

  lemma FirstTransfer(data: seq<Octet>, n: nat, buf: seq<Octet>, stale: nat -> (Octet, Octet), stream: seq<Octet>)
    requires 1 <= |data| <= |buf| && Covers(n, |data|) && stream == CleanStream(data, 0, FIRST_NUMBER)
    ensures var (r, replies, o) := Receive(Rx(buf, 0, |data|, FIRST_NUMBER), stream, stale);
            r.buf == data + buf[|data|..] && replies == Acks(n + 1) && o == Done
  {
    var s := Rx(buf, 0, |data|, FIRST_NUMBER);
    assert OnTrack(s, data);
    ReceiveClean(s, data, n, stale);
  }

  lemma {:induction false} AcksFinish(n: nat)
    requires n > 0
    ensures Finishes(n, Acks(n + 1)) && RepliesUsed(n, Acks(n + 1)) == n + 1
  {
    assert Acks(n + 1)[1..] == Acks(n);
    if n > 1 {
      AcksFinish(n - 1);
    }
  }

  // ----- Replies other than ACK

  /** The data of the packets that were acknowledged, one after the other. */
  function Accepted(data: seq<Octet>, at: nat, size: nat, left: nat, replies: seq<Octet>): seq<Octet>
    requires left > 0 && (size == 0 || at + size <= |data|)
    decreases |replies|
  {
    if replies == [] then []
    else if replies[0] == ACK then
      PacketData(data, at, size) +
      if left == 1 then [] else Accepted(data, at + PKTLEN, Less(size), left - 1, replies[1..])
    else Accepted(data, at, Less(size), left, replies[1..])
  }

  /** Once a packet has been sent in vain, the count of bytes still to send runs out one packet
      early, and the last packet holds nothing but zeros. */
  lemma {:induction false} LastPacketIsEmpty(data: seq<Octet>, at: nat, size: nat, left: nat, replies: seq<Octet>)
    requires left > 0 && (size == 0 || at + size <= |data|) && size <= PKTLEN * (left - 1)
    requires Finishes(left, replies)
    ensures var a := Accepted(data, at, size, left, replies);
            |a| == PKTLEN * left && forall i :: PKTLEN * (left - 1) <= i < |a| ==> a[i] == ZERO
    decreases |replies|
  {
    if replies[0] == ACK {
      if left > 1 {
        LastPacketIsEmpty(data, at + PKTLEN, Less(size), left - 1, replies[1..]);
      }
    } else {
      LastPacketIsEmpty(data, at, Less(size), left, replies[1..]);
    }
  }

  lemma {:induction false} ResendLosesTheEnd(data: seq<Octet>, at: nat, size: nat, left: nat, replies: seq<Octet>, k: nat)
    requires left > 0 && (size == 0 || at + size <= |data|) && size <= PKTLEN * left
    requires Finishes(left, replies) && k < left && k < |replies| && replies[k] != ACK
    ensures var a := Accepted(data, at, size, left, replies);
            |a| == PKTLEN * left && forall i :: PKTLEN * (left - 1) <= i < |a| ==> a[i] == ZERO
    decreases |replies|
  {
    if replies[0] == ACK {
      ResendLosesTheEnd(data, at + PKTLEN, Less(size), left - 1, replies[1..], k - 1);
    } else {
      LastPacketIsEmpty(data, at, Less(size), left, replies[1..]);
    }
  }

  lemma {:induction false} AcceptedClean(data: seq<Octet>, at: nat, size: nat, left: nat, replies: seq<Octet>)
    requires size == |data| - at > 0 && Covers(left, size) && left <= |replies|
    requires forall i :: 0 <= i < left ==> replies[i] == ACK
    ensures left > 0
    ensures var a := Accepted(data, at, size, left, replies); |a| >= size && a[..size] == data[at..]
    decreases left
  {
    if left > 1 {
      AcceptedClean(data, at + PKTLEN, Less(size), left - 1, replies[1..]);
      JoinPackets(data, at, size, Accepted(data, at + PKTLEN, Less(size), left - 1, replies[1..]));
    } else {
      AcceptedLast(data, at, size, replies);
    }
  }

  lemma AcceptedLast(data: seq<Octet>, at: nat, size: nat, replies: seq<Octet>)
    requires 0 < size == |data| - at <= PKTLEN && replies != [] && replies[0] == ACK
    ensures var a := Accepted(data, at, size, 1, replies); |a| >= size && a[..size] == data[at..]
  {
    var d := PacketData(data, at, size);
    assert d + [] == d;
    assert d[..size] == data[at..];
  }

  lemma JoinPackets(data: seq<Octet>, at: nat, size: nat, rest: seq<Octet>)
    requires size == |data| - at > PKTLEN && |rest| >= Less(size) && rest[..Less(size)] == data[at + PKTLEN..]
    ensures (PacketData(data, at, size) + rest)[..size] == data[at..]
  {
    FullPacket(data, at);
    TakeAfter(PacketData(data, at, size), rest, size);
  }

  lemma FullPacket(data: seq<Octet>, at: nat)
    requires at + PKTLEN < |data|
    ensures data[at..] == PacketData(data, at, |data| - at) + data[at + PKTLEN..]
  {
  }

  lemma TakeAfter(d: seq<Octet>, e: seq<Octet>, n: nat)
    requires |d| <= n <= |d| + |e|
    ensures (d + e)[..n] == d + e[..n - |d|]
  {
  }

  // ----- Every packet sent

  /** The acknowledgements among the first k replies. */
  function AcksIn(replies: seq<Octet>, k: nat): (r: nat)
    requires k <= |replies|
    ensures r <= k
  {
    if k == 0 then 0 else AcksIn(replies, k - 1) + if replies[k - 1] == ACK then 1 else 0
  }

  /** The bytes not yet sent when k packets have been, repeated or not. */
  function LeftAfter(size: nat, k: nat): nat {
    if size < PKTLEN * k then 0 else size - PKTLEN * k
  }

  /** The packet of that number, or nothing if there are not so many bytes. */
  function PacketAt(s: seq<Octet>, k: nat): seq<Octet> {
    var from := (PKTLEN + 5) * k;
    if from + PKTLEN + 5 <= |s| then s[from..from + PKTLEN + 5] else []
  }

  function Numbered(sno: Octet, acks: nat): Octet
    decreases acks
  {
    if acks == 0 then sno else Numbered(Increment(sno), acks - 1)
  }

  lemma {:induction false} NumberedCounts(sno: Octet, acks: nat)
    ensures Value(Numbered(sno, acks)) == (Value(sno) + acks) % 256
    decreases acks
  {
    NumberCounts(sno);
    if acks > 0 {
      NumberedCounts(Increment(sno), acks - 1);
      OneMore(Value(sno), acks - 1);
    }
  }

  lemma OneMore(value: nat, n: nat)
    ensures ((value + 1) % 256 + n) % 256 == (value + n + 1) % 256
  {
  }

  lemma NumberCounts(sno: Octet)
    ensures Value(sno) < 256 && Value(Increment(sno)) == (Value(sno) + 1) % 256
  {
    IncrementCounts(sno);
    assert Power2(8) == 256;
  }

  /** What makes the packet for a place in the data, the bytes left there, and a number. */
  type Maker = (nat, nat, Octet) -> seq<Octet>

  function PacketOf(data: seq<Octet>): Maker {
    (at: nat, size: nat, sno: Octet) =>
      if size == 0 || at + size <= |data| then Packet(PacketData(data, at, size), sno) else seq(PKTLEN + 5, _ => ZERO)
  }

  lemma PacketMade(data: seq<Octet>, at: nat, size: nat, sno: Octet)
    ensures |PacketOf(data)(at, size, sno)| == PKTLEN + 5
    ensures size == 0 || at + size <= |data| ==> PacketOf(data)(at, size, sno) == Packet(PacketData(data, at, size), sno)
  {
  }

  ghost predicate MakesPackets(pk: Maker) {
    forall at: nat, size: nat, sno: Octet :: |pk(at, size, sno)| == PKTLEN + 5
  }

  lemma OfPackets(data: seq<Octet>)
    ensures MakesPackets(PacketOf(data))
  {
    forall at: nat, size: nat, sno: Octet
      ensures |PacketOf(data)(at, size, sno)| == PKTLEN + 5
    {
      PacketMade(data, at, size, sno);
    }
  }

  /** The line of a sender of any packets. */
  function Line(pk: Maker, at: nat, size: nat, sno: Octet, left: nat, replies: seq<Octet>): seq<Octet>
    requires left > 0
    decreases |replies|, 1
  {
    pk(at, size, sno) + Onward(pk, at, size, sno, left, replies)
  }

  function Onward(pk: Maker, at: nat, size: nat, sno: Octet, left: nat, replies: seq<Octet>): seq<Octet>
    requires left > 0
    decreases |replies|, 0
  {
    if replies == [] then []
    else if replies[0] != ACK then Line(pk, at, Less(size), sno, left, replies[1..])
    else if left == 1 then [EOT]
    else Line(pk, at + PKTLEN, Less(size), Increment(sno), left - 1, replies[1..])
  }

  /** What is sent is such a line. */
  lemma {:induction false} SendingIsLine(data: seq<Octet>, at: nat, size: nat, sno: Octet, left: nat, replies: seq<Octet>)
    requires left > 0 && (size == 0 || at + size <= |data|)
    ensures Sending(data, at, size, sno, left, replies) == Line(PacketOf(data), at, size, sno, left, replies)
    decreases |replies|, 1
  {
    PacketMade(data, at, size, sno);
    if replies != [] {
      OneReplyOn(data, at, size, sno, left, replies);
      OnwardIsLine(data, at, size, sno, left, replies);
    }
  }

  lemma {:induction false} OnwardIsLine(data: seq<Octet>, at: nat, size: nat, sno: Octet, left: nat, replies: seq<Octet>)
    requires left > 0 && (size == 0 || at + size <= |data|) && replies != []
    ensures Onward(PacketOf(data), at, size, sno, left, replies) ==
            if replies[0] != ACK then Sending(data, at, Less(size), sno, left, replies[1..])
            else if left == 1 then [EOT]
            else Sending(data, at + PKTLEN, Less(size), Increment(sno), left - 1, replies[1..])
    decreases |replies|, 0
  {
    if replies[0] != ACK {
      SendingIsLine(data, at, Less(size), sno, left, replies[1..]);
    } else if left > 1 {
      SendingIsLine(data, at + PKTLEN, Less(size), Increment(sno), left - 1, replies[1..]);
    }
  }

  lemma OneReplyOn(data: seq<Octet>, at: nat, size: nat, sno: Octet, left: nat, replies: seq<Octet>)
    requires left > 0 && (size == 0 || at + size <= |data|) && replies != []
    ensures Sending(data, at, size, sno, left, replies) == Packet(PacketData(data, at, size), sno) +
            if replies[0] != ACK then Sending(data, at, Less(size), sno, left, replies[1..])
            else if left == 1 then [EOT]
            else Sending(data, at + PKTLEN, Less(size), Increment(sno), left - 1, replies[1..])
  {
  }

  /** The packet sent after k replies: its number and place in the data go with the acknowledgements
      among them, what is left with all of them. */
  lemma {:induction false} LinePacket(pk: Maker, at: nat, size: nat, sno: Octet, left: nat, replies: seq<Octet>, k: nat, acks: nat)
    requires MakesPackets(pk) && left > 0 && k <= |replies| && acks == AcksIn(replies, k) < left
    ensures PacketAt(Line(pk, at, size, sno, left, replies), k)
         == pk(at + PKTLEN * acks, LeftAfter(size, k), Numbered(sno, acks))
    decreases k
  {
    var first, onward := pk(at, size, sno), Onward(pk, at, size, sno, left, replies);
    if k == 0 {
      FirstPacket(first, onward);
    } else {
      var rest, j := replies[1..], k - 1;
      PacketLater(first, onward, j, k);
      AcksLater(replies, k, j);
      LeftLater(size, k, j);
      if replies[0] == ACK {
        var m := AcksIn(rest, j);
        LinePacket(pk, at + PKTLEN, Less(size), Increment(sno), left - 1, rest, j, m);
        assert at + PKTLEN * acks == at + PKTLEN + PKTLEN * m;
      } else {
        LinePacket(pk, at, Less(size), sno, left, rest, j, acks);
      }
    }
  }

  lemma FirstPacket(x: seq<Octet>, y: seq<Octet>)
    requires |x| == PKTLEN + 5
    ensures PacketAt(x + y, 0) == x
  {
  }

  lemma {:induction false} AcksLater(replies: seq<Octet>, k: nat, j: nat)
    requires k == j + 1 && k <= |replies|
    ensures AcksIn(replies, k) == (if replies[0] == ACK then 1 else 0) + AcksIn(replies[1..], j)
    decreases k
  {
    if j > 0 {
      AcksLater(replies, j, j - 1);
    }
  }

  lemma LeftLater(size: nat, k: nat, j: nat)
    requires k == j + 1
    ensures LeftAfter(size, k) == LeftAfter(Less(size), j)
  {
  }

  lemma PacketLater(x: seq<Octet>, y: seq<Octet>, j: nat, k: nat)
    requires |x| == PKTLEN + 5 && k == j + 1
    ensures PacketAt(x + y, k) == PacketAt(y, j)
  {
    if (PKTLEN + 5) * j + PKTLEN + 5 <= |y| {
      LaterBytes(x, y, (PKTLEN + 5) * j, PKTLEN + 5);
    }
  }

  lemma LaterBytes(x: seq<Octet>, y: seq<Octet>, from: nat, n: nat)
    requires from + n <= |y|
    ensures (x + y)[|x| + from..|x| + from + n] == y[from..from + n]
  {
  }

  /** The line ends with the acknowledgement of the last packet. */
  lemma {:induction false} LineEnds(pk: Maker, at: nat, size: nat, sno: Octet, left: nat, replies: seq<Octet>, k: nat)
    requires MakesPackets(pk) && left > 0
    requires k < |replies| && AcksIn(replies, k) == left - 1 && replies[k] == ACK
    ensures var s := Line(pk, at, size, sno, left, replies);
            |s| == (PKTLEN + 5) * (k + 1) + 1 && s[|s| - 1] == EOT
    decreases k
  {
    if k > 0 {
      AcksLater(replies, k, k - 1);
      if replies[0] == ACK {
        LineEnds(pk, at + PKTLEN, Less(size), Increment(sno), left - 1, replies[1..], k - 1);
      } else {
        LineEnds(pk, at, Less(size), sno, left, replies[1..], k - 1);
      }
    }
  }

  /** It finishes when as many packets are acknowledged as there are, and one more byte comes. */
  lemma {:induction false} FinishesIff(left: nat, replies: seq<Octet>)
    requires left > 0
    ensures Finishes(left, replies) <==> replies != [] && AcksIn(replies, |replies| - 1) >= left
    decreases |replies|
  {
    if replies != [] {
      var rest, n := replies[1..], |replies| - 1;
      if n > 0 {
        AcksLater(replies, n, n - 1);
        if !(replies[0] == ACK && left == 1) {
          FinishesIff(if replies[0] == ACK then left - 1 else left, rest);
        }
      }
    }
  }

  /** The data of the packet of that number, or nothing if there is not so much. */
  function DataAt(a: seq<Octet>, n: nat): seq<Octet> {
    var from := PKTLEN * n;
    if from + PKTLEN <= |a| then a[from..from + PKTLEN] else []
  }

  /** What is taken in is the data of the packets that were acknowledged, in order. */
  lemma {:induction false} AcceptedPacket(data: seq<Octet>, at: nat, size: nat, left: nat, replies: seq<Octet>, k: nat, acks: nat)
    requires left > 0 && (size == 0 || at + size <= |data|)
    requires k < |replies| && acks == AcksIn(replies, k) < left && replies[k] == ACK
    ensures DataAt(Accepted(data, at, size, left, replies), acks) == PacketData(data, at + PKTLEN * acks, LeftAfter(size, k))
    decreases k
  {
    if k == 0 {
      FirstAccepted(data, at, size, left, replies);
    } else {
      var rest, j := replies[1..], k - 1;
      AcksLater(replies, k, j);
      LeftLater(size, k, j);
      var m := AcksIn(rest, j);
      if replies[0] == ACK {
        AcceptedPacket(data, at + PKTLEN, Less(size), left - 1, rest, j, m);
        AcceptedAfterAck(data, at, size, left, replies, m, acks);
        assert at + PKTLEN * acks == at + PKTLEN + PKTLEN * m;
      } else {
        AcceptedPacket(data, at, Less(size), left, rest, j, acks);
        AcceptedAfterOther(data, at, size, left, replies);
      }
    }
  }

  lemma FirstAccepted(data: seq<Octet>, at: nat, size: nat, left: nat, replies: seq<Octet>)
    requires left > 0 && (size == 0 || at + size <= |data|) && replies != [] && replies[0] == ACK
    ensures DataAt(Accepted(data, at, size, left, replies), 0) == PacketData(data, at, size)
  {
  }

  lemma AcceptedAfterAck(data: seq<Octet>, at: nat, size: nat, left: nat, replies: seq<Octet>, m: nat, n: nat)
    requires left > 1 && (size == 0 || at + size <= |data|) && replies != [] && replies[0] == ACK && n == m + 1
    ensures DataAt(Accepted(data, at, size, left, replies), n)
         == DataAt(Accepted(data, at + PKTLEN, Less(size), left - 1, replies[1..]), m)
  {
    DataLater(PacketData(data, at, size), Accepted(data, at + PKTLEN, Less(size), left - 1, replies[1..]), m, n);
  }

  lemma AcceptedAfterOther(data: seq<Octet>, at: nat, size: nat, left: nat, replies: seq<Octet>)
    requires left > 0 && (size == 0 || at + size <= |data|) && replies != [] && replies[0] != ACK
    ensures Accepted(data, at, size, left, replies) == Accepted(data, at, Less(size), left, replies[1..])
  {
  }

  lemma DataLater(x: seq<Octet>, y: seq<Octet>, m: nat, n: nat)
    requires |x| == PKTLEN && n == m + 1
    ensures DataAt(x + y, n) == DataAt(y, m)
  {
    if PKTLEN * m + PKTLEN <= |y| {
      LaterBytes(x, y, PKTLEN * m, PKTLEN);
    }
  }

  /** The packets that were acknowledged begin with the data. */
  predicate Arrived(data: seq<Octet>, left: nat, replies: seq<Octet>)
    requires left > 0
  {
    var a := Accepted(data, 0, |data|, left, replies);
    |a| >= |data| && a[..|data|] == data
  }

  /** The data arrives, whatever it is, exactly when no packet had to be sent a second time. */
  lemma ResendingIsRightIff(length: nat, n: nat, replies: seq<Octet>)
    requires 1 <= length <= 0xFFFF && Covers(n, length)
    requires n > 0 && Finishes(n, replies)
    ensures n < |replies|
    ensures (forall data: seq<Octet> :: |data| == length ==> Arrived(data, n, replies))
       <==> forall i :: 0 <= i < n ==> replies[i] == ACK
  {
    FinishesLength(n, replies);
    if forall i :: 0 <= i < n ==> replies[i] == ACK {
      forall data: seq<Octet> | |data| == length
        ensures Arrived(data, n, replies)
      {
        AllArrived(data, n, replies);
      }
    } else {
      var k: nat :| k < n && replies[k] != ACK;
      AcksGetLost(Acks(length), n, replies, k);
    }
  }

  lemma AllArrived(data: seq<Octet>, n: nat, replies: seq<Octet>)
    requires data != [] && Covers(n, |data|) && 0 < n <= |replies|
    requires forall i :: 0 <= i < n ==> replies[i] == ACK
    ensures Arrived(data, n, replies)
  {
    AcceptedClean(data, 0, |data|, n, replies);
    assert data[0..] == data;
  }

  lemma AcksGetLost(data: seq<Octet>, left: nat, replies: seq<Octet>, k: nat)
    requires data != [] && (forall i :: 0 <= i < |data| ==> data[i] == ACK)
    requires Covers(left, |data|) && left > 0 && Finishes(left, replies)
    requires k < left && k < |replies| && replies[k] != ACK
    ensures !Arrived(data, left, replies)
  {
    var a, last := Accepted(data, 0, |data|, left, replies), |data| - 1;
    ResendLosesTheEnd(data, 0, |data|, left, replies, k);
    assert a[last] == ZERO;
    assert ACK[5] && !ZERO[5];
    assert a[..|data|][last] == a[last];
  }

  lemma {:induction false} FinishesLength(left: nat, replies: seq<Octet>)
    requires left > 0 && Finishes(left, replies)
    ensures left < |replies|
    decreases |replies|
  {
    if !(replies[0] == ACK && left == 1) {
      FinishesLength(if replies[0] == ACK then left - 1 else left, replies[1..]);
    }
  }
}
