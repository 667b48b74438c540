/** The XMODEM routines on a serial line: the bytes that will arrive, and those sent. */
module XmodemPort {
  import opened Crc
  import opened Xmodem

  /** How the sender's wait for the receiver ends. */
  datatype Sync = Started(rest: seq<Octet>) | Quit | NeverStarted

  function Synchronise(input: seq<Octet>): Sync {
    if input == [] then NeverStarted
    else if input[0] == NAK || input[0] == LETTER_C then Started(input[1..])
    else if input[0] == LETTER_Q then Quit
    else Synchronise(input[1..])
  }

  /** The sender starts at the first request, a NAK or the letter C, unless the letter q came before. */
  lemma {:induction false} StartsAtFirstRequest(input: seq<Octet>, k: nat)
    requires k < |input|
    requires forall j :: 0 <= j < k ==> input[j] != NAK && input[j] != LETTER_C && input[j] != LETTER_Q
    requires input[k] == NAK || input[k] == LETTER_C || input[k] == LETTER_Q
    ensures Synchronise(input) == if Value(input[k]) == 0x71 then Quit else Started(input[k + 1..])
    decreases k
  {
    LineBytes();
    if k > 0 {
      assert input[1..][k - 1] == input[k] && input[1..][k..] == input[k + 1..];
      assert forall j :: 0 <= j < k - 1 ==> input[1..][j] == input[j + 1];
      StartsAtFirstRequest(input[1..], k - 1);
    }
  }

  datatype SendResult = Sent | Cancelled | Blocked

  datatype ReceiveResult = Received | NoSender | Starved

  class Port {
    /** What the other side will send. Reading beyond it waits for ever. */
    var input: seq<Octet>
    var output: seq<Octet>
    var sizeOfData: nat

    constructor (input: seq<Octet>)
      ensures this.input == input && output == []
    {
      this.input, output, sizeOfData := input, [], 0;
    }

    method GetC() returns (ok: bool, c: Octet)
      modifies this`input
      ensures ok <==> old(input) != []
      ensures if ok then c == old(input)[0] && input == old(input)[1..] else unchanged(this)
    {
      if input == [] {
        return false, ZERO;
      }
      c, input, ok := input[0], input[1..], true;
    }

    method PutC(c: Octet)
      modifies this`output
      ensures output == old(output) + [c]
    {
      output := output + [c];
    }

    // ----- Sending

    method PutPacket(data: array<Octet>, at: nat, sno: Octet) returns (ok: bool, c: Octet)
      requires sizeOfData == 0 || at + sizeOfData <= data.Length
      modifies this
      ensures output == old(output) + Packet(PacketData(data[..], at, old(sizeOfData)), sno)
      ensures sizeOfData == Less(old(sizeOfData))
      ensures ok <==> old(input) != []
      ensures if ok then c == old(input)[0] && input == old(input)[1..] else input == old(input)
    {
      PutC(SOH);
      PutC(sno);
      PutC(Invert(sno));
      ghost var d := PacketData(data[..], at, sizeOfData);
      AssemblePacket(old(output), d, sno);
      var chksm := PutBody(data, at);
      PutC(High(chksm));
      PutC(Low(chksm));
      ok, c := GetC();
    }

    /** The data of a packet; the counter of bytes still to send runs down to 0. */
    method PutBody(data: array<Octet>, at: nat) returns (chksm: Register)
      requires sizeOfData == 0 || at + sizeOfData <= data.Length
      modifies this`output, this`sizeOfData
      ensures var d := PacketData(data[..], at, old(sizeOfData)); output == old(output) + d && chksm == CrcOf(d)
      ensures sizeOfData == Less(old(sizeOfData))
    {
      ghost var d, size := PacketData(data[..], at, sizeOfData), sizeOfData;
      chksm := Zeros(16);
      assert d[..0] == [];
      for i := 0 to PKTLEN
        invariant sizeOfData == if size < i then 0 else size - i
        invariant output == old(output) + d[..i]
        invariant chksm == CrcOf(d[..i])
      {
        var b: Octet := ZERO;
        if sizeOfData > 0 {
          b := data[at + i];
          sizeOfData := sizeOfData - 1;
        }
        OneMoreByte(d, i, i + 1, b);
        PutC(b);
        chksm := AddCrc(b, chksm);
      }
      assert d[..PKTLEN] == d;
    }

    static lemma OneMoreByte(d: seq<Octet>, i: nat, m: nat, b: Octet)
      requires i < |d| && m == i + 1 && d[i] == b
      ensures d[..m] == d[..i] + [b] && CrcOf(d[..m]) == Step(b, CrcOf(d[..i]))
    {
      CrcSnoc(d[..i], b);
    }

    /** Waits for the receiver to ask for data. */
    method AwaitStart() returns (sync: Sync)
      modifies this`input
      ensures sync == Synchronise(old(input))
      ensures sync.Started? ==> input == sync.rest
    {
      while true
        invariant Synchronise(old(input)) == Synchronise(input)
        decreases |input|
      {
        var ok, c := GetC();
        if !ok {
          return NeverStarted;
        }
        if c == NAK || c == LETTER_C {
          return Started(input);
        }
        if c == LETTER_Q {
          QIsNotStart();
          return Quit;
        }
      }
    }

    /** Sends the first `length` bytes. The 16-bit byte counter starts at `length` modulo 2^16. */
    method PutDataXmd(data: array<Octet>, length: nat) returns (r: SendResult)
      requires 0 < length <= data.Length
      modifies this
      ensures var sync, n := Synchronise(old(input)), Rounded(length) / PKTLEN;
              && n > 0 && Covers(n, length)
              && (if sync.Started? then
                    && output == old(output) + Sending(data[..length], 0, length % 0x10000, FIRST_NUMBER, n, sync.rest)
                    && r == if Finishes(n, sync.rest) then Sent else Blocked
                  else output == old(output) && r == if sync.Quit? then Cancelled else Blocked)
    {
      sizeOfData := length % 0x10000;
      RoundedCovers(length);
      var sync := AwaitStart();
      if !sync.Started? {
        return if sync.Quit? then Cancelled else Blocked;
      }
      r := PutPackets(data, length, Rounded(length));
    }

    method PutPackets(data: array<Octet>, length: nat, rounded: nat) returns (r: SendResult)
      requires length <= data.Length && sizeOfData <= length <= rounded && rounded > 0 && rounded % PKTLEN == 0
      modifies this
      ensures output == old(output) +
                Sending(data[..length], 0, old(sizeOfData), FIRST_NUMBER, rounded / PKTLEN, old(input))
      ensures r == if Finishes(rounded / PKTLEN, old(input)) then Sent else Blocked
    {
      var sno: Octet := FIRST_NUMBER;
      var at: nat, left: nat := 0, rounded;
      ghost var bytes, todo := data[..length], rounded / PKTLEN;
      ghost var whole, sent := output + Sending(bytes, 0, sizeOfData, FIRST_NUMBER, todo, input), Finishes(todo, input);
      while true
        invariant left == PKTLEN * todo && OnLine(bytes, at, sno, todo, whole, sent)
        decreases |input|
      {
        var ok, c := Exchange(data, at, sno, bytes, todo, whole, sent);
        if !ok {
          return Blocked;
        }
        if c == ACK {
          sno := Increment(sno);
          left := left - PKTLEN;
          at := at + PKTLEN;
          todo := todo - 1;
        }
        if left == 0 {
          r := EndTransmission();
          return;
        }
      }
    }

    method EndTransmission() returns (r: SendResult)
      modifies this`output, this`input
      ensures output == old(output) + [EOT] && r == if old(input) != [] then Sent else Blocked
    {
      PutC(EOT);
      var ok, c := GetC();
      r := if ok then Sent else Blocked;
    }

    /** With `todo` packets still to be accepted, `whole` is all that will ever be sent, and `sent`
        says whether it will all be. */
    ghost predicate OnLine(bytes: seq<Octet>, at: nat, sno: Octet, todo: nat, whole: seq<Octet>, sent: bool)
      reads this
    {
      && todo > 0 && (sizeOfData == 0 || at + sizeOfData <= |bytes|)
      && whole == output + Sending(bytes, at, sizeOfData, sno, todo, input)
      && sent == Finishes(todo, input)
    }

    /** One packet out and one reply in, while `whole` is all that will ever be sent. */
    method Exchange(data: array<Octet>, at: nat, sno: Octet,
                    ghost bytes: seq<Octet>, ghost todo: nat, ghost whole: seq<Octet>, ghost sent: bool)
      returns (ok: bool, c: Octet)
      requires bytes <= data[..] && OnLine(bytes, at, sno, todo, whole, sent)
      modifies this
      ensures ok <==> old(input) != []
      ensures sizeOfData == Less(old(sizeOfData))
      ensures if ok then c == old(input)[0] && input == old(input)[1..] else input == old(input) && whole == output && !sent
      ensures ok && c != ACK ==> OnLine(bytes, at, sno, todo, whole, sent)
      ensures ok && c == ACK && todo == 1 ==> whole == output + [EOT] && sent == (input != [])
      ensures ok && c == ACK && todo > 1 ==> OnLine(bytes, at + PKTLEN, Increment(sno), todo - 1, whole, sent)
    {
      SamePacketData(data[..], bytes, at, sizeOfData);
      SendingOne(bytes, at, sizeOfData, sno, todo, input, output);
      FinishesOne(todo, input);
      ok, c := PutPacket(data, at, sno);
    }

    static lemma FinishesOne(todo: nat, replies: seq<Octet>)
      requires todo > 0
      ensures replies == [] ==> !Finishes(todo, replies)
      ensures replies != [] && replies[0] != ACK ==> Finishes(todo, replies) == Finishes(todo, replies[1..])
      ensures replies != [] && replies[0] == ACK && todo > 1 ==> Finishes(todo, replies) == Finishes(todo - 1, replies[1..])
      ensures replies != [] && replies[0] == ACK && todo == 1 ==> Finishes(todo, replies) == (replies[1..] != [])
    {
    }

    // ----- Receiving

    /** How many of `m` arriving bytes are kept: data only up to the announced length, packet
        numbers only while data is expected. */
    function Kept(m: nat, length: nat, size: nat): nat {
      if length == PKTLEN then Min(m, size) else if size > 0 then m else 0
    }

    method GetBytes(dst: array<Octet>, at: nat, length: nat) returns (ok: bool, crc: Register)
      requires Kept(length, length, sizeOfData) == 0 || at + Kept(length, length, sizeOfData) <= dst.Length
      modifies this`input, this`sizeOfData, dst
      ensures ok <==> |old(input)| >= length
      ensures var m := Min(length, |old(input)|);
              && input == old(input)[m..]
              && sizeOfData == (if length == PKTLEN then old(sizeOfData) - Min(m, old(sizeOfData)) else old(sizeOfData))
              && crc == CrcOf(old(input)[..m])
              && forall i :: 0 <= i < dst.Length ==>
                   dst[i] == if at <= i < at + Kept(m, length, old(sizeOfData)) then old(input)[i - at] else old(dst[i])
    {
      crc := Zeros(16);
      ghost var all, size := input, sizeOfData;
      assert all[..0] == [];
      for cpt := 0 to length
        invariant cpt <= |all| && input == all[cpt..]
        invariant sizeOfData == if length == PKTLEN then size - Min(cpt, size) else size
        invariant crc == CrcOf(all[..cpt])
        invariant forall i :: 0 <= i < dst.Length ==>
                    dst[i] == if at <= i < at + Kept(cpt, length, size) then all[i - at] else old(dst[i])
      {
        var c;
        ok, c := GetC();
        if !ok {
          return;
        }
        assert all[..cpt + 1] == all[..cpt] + [c];
        CrcSnoc(all[..cpt], c);
        crc := AddCrc(c, crc);
        if sizeOfData > 0 {
          dst[at + cpt] := c;
          if length == PKTLEN {
            sizeOfData := sizeOfData - 1;
          }
        }
      }
      ok := true;
    }

    ghost function State(data: array<Octet>, at: nat, sno: Octet): Rx
      reads this, data
    {
      Rx(data[..], at, sizeOfData, sno)
    }

    /** Takes in the rest of a packet after its start byte. */
    method GetPacket(data: array<Octet>, at: nat, sno: Octet, stale: nat -> (Octet, Octet))
      returns (ok: bool, accepted: bool)
      requires RxOk(State(data, at, sno))
      modifies this, data
      ensures var s, inp := old(State(data, at, sno)), [SOH] + old(input);
              && (ok <==> |inp| >= PKTLEN + 5)
              && State(data, at, sno) == Taken(s, inp)
              && (if ok then
                    && accepted == Acceptable(s, inp, stale) && input == inp[PKTLEN + 5..]
                    && output == old(output) + [if accepted then ACK else CAN]
                  else output == old(output))
    {
      ghost var s, inp := State(data, at, sno), [SOH] + input;
      var seq0, seq1, xcrc;
      ok, seq0, seq1, xcrc := GetNumbersAndData(data, at, sno, stale);
      if !ok {
        return false, false;
      }
      var high, low;
      ok, high := GetC();
      if !ok {
        return false, false;
      }
      ok, low := GetC();
      if !ok {
        return false, false;
      }
      var crc := CrcFrom(high, low);
      if crc != xcrc || seq0 != sno || seq1 != Invert(sno) {
        PutC(CAN);
        return true, false;
      }
      PutC(ACK);
      return true, true;
    }

    method GetNumbers(numbers: (Octet, Octet)) returns (ok: bool, seq0: Octet, seq1: Octet)
      modifies this`input, this`sizeOfData
      ensures sizeOfData == old(sizeOfData)
      ensures ok <==> |old(input)| >= 2
      ensures input == old(input)[Min(2, |old(input)|)..]
      ensures ok ==> (seq0, seq1) == if sizeOfData > 0 then (old(input)[0], old(input)[1]) else numbers
    {
      var seqNumbers := new Octet[][numbers.0, numbers.1];
      var crc;
      ok, crc := GetBytes(seqNumbers, 0, 2);
      seq0, seq1 := seqNumbers[0], seqNumbers[1];
    }

    method GetNumbersAndData(data: array<Octet>, at: nat, sno: Octet, stale: nat -> (Octet, Octet))
      returns (ok: bool, seq0: Octet, seq1: Octet, xcrc: Register)
      requires RxOk(State(data, at, sno))
      modifies this`input, this`sizeOfData, data
      ensures var s, inp := old(State(data, at, sno)), [SOH] + old(input);
              && (ok <==> |inp| >= PKTLEN + 3)
              && State(data, at, sno) == Taken(s, inp)
              && (ok ==> (seq0, seq1) == Numbers(s, inp, stale) && xcrc == CrcOf(inp[3..PKTLEN + 3])
                         && input == inp[PKTLEN + 3..])
    {
      ghost var s, inp := State(data, at, sno), [SOH] + input;
      ok, seq0, seq1 := GetNumbers(stale(at));
      if !ok {
        xcrc := Zeros(16);
        return;
      }
      assert input == inp[3..];
      ok, xcrc := GetBytes(data, at, PKTLEN);
      TakenIsStored(s, inp, State(data, at, sno));
      assert ok ==> inp[3..][..PKTLEN] == inp[3..PKTLEN + 3];
    }

    /** Asks for data until the sender answers, at most 100 times, and then takes packets until
        the end of the transmission, a cancellation or a bad packet. `silentRounds` says how
        often the wait for the sender times out. */
    method GetDataXmd(data: array<Octet>, length: nat, silentRounds: nat, stale: nat -> (Octet, Octet))
      returns (r: ReceiveResult)
      requires 0 < length <= data.Length
      modifies this, data
      ensures silentRounds >= MAX_TIMEOUTS ==>
                r == NoSender && data[..] == old(data[..]) && output == old(output) + seq(MAX_TIMEOUTS, _ => LETTER_C)
      ensures silentRounds < MAX_TIMEOUTS ==>
                var (t, out, o) := Receive(Rx(old(data[..]), 0, length % 0x10000, FIRST_NUMBER), old(input), stale);
                && data[..] == t.buf && output == old(output) + seq(silentRounds + 1, _ => LETTER_C) + out
                && r == if o == Done then Received else Starved
      ensures data[length..] == old(data[length..])
    {
      sizeOfData := length % 0x10000;
      var found := AskForData(silentRounds);
      if !found {
        return NoSender;
      }
      ReceiveWritesInside(State(data, 0, FIRST_NUMBER), input, stale, length);
      r := GetPackets(data, stale);
    }

    method AskForData(silentRounds: nat) returns (found: bool)
      modifies this`output
      ensures found <==> silentRounds < MAX_TIMEOUTS
      ensures output == old(output) + seq(if found then silentRounds + 1 else MAX_TIMEOUTS, _ => LETTER_C)
    {
      var timeouts, round := MAX_TIMEOUTS, 0;
      while true
        invariant timeouts == MAX_TIMEOUTS - round > 0 && round <= silentRounds
        invariant output == old(output) + seq(round, _ => LETTER_C)
        decreases timeouts
      {
        PutC(LETTER_C);
        assert seq(round, _ => LETTER_C) + [LETTER_C] == seq(round + 1, _ => LETTER_C);
        if round == silentRounds {
          return true;
        }
        round := round + 1;
        timeouts := timeouts - 1;
        if timeouts == 0 {
          return false;
        }
      }
    }

    method GetPackets(data: array<Octet>, stale: nat -> (Octet, Octet)) returns (r: ReceiveResult)
      requires sizeOfData <= data.Length
      modifies this, data
      ensures var (t, out, o) := Receive(old(State(data, 0, FIRST_NUMBER)), old(input), stale);
              data[..] == t.buf && output == old(output) + out && r == if o == Done then Received else Starved
    {
      var sno: Octet := FIRST_NUMBER;
      var at: nat := 0;
      ghost var end := Eventually(State(data, 0, FIRST_NUMBER), input, stale, output);
      while true
        invariant RxOk(State(data, at, sno)) && Eventually(State(data, at, sno), input, stale, output) == end
        decreases |input|
      {
        EventuallyOne(State(data, at, sno), input, stale, output);
        ghost var inp := input;
        var ok, c := GetC();
        if !ok {
          return Starved;
        }
        if c == SOH {
          assert [SOH] + input == inp;
          var accepted;
          ok, accepted := GetPacket(data, at, sno, stale);
          if !ok {
            return Starved;
          }
          if !accepted {
            return Received;
          }
          sno := Increment(sno);
          at := at + PKTLEN;
        } else if c == EOT {
          PutC(ACK);
          return Received;
        } else {
          return Received;
        }
      }
    }
  }

  /** How it all ends: the final state, everything sent, and the outcome. */
  ghost function Eventually(s: Rx, inp: seq<Octet>, stale: nat -> (Octet, Octet), output: seq<Octet>): (Rx, seq<Octet>, Outcome)
    requires RxOk(s)
  {
    var r := Receive(s, inp, stale);
    (r.0, output + r.1, r.2)
  }

  lemma EventuallyOne(s: Rx, inp: seq<Octet>, stale: nat -> (Octet, Octet), output: seq<Octet>)
    requires RxOk(s)
    ensures inp == [] ==> Eventually(s, inp, stale, output) == (s, output, Waiting)
    ensures inp != [] && inp[0] == EOT ==> Eventually(s, inp, stale, output) == (s, output + [ACK], Done)
    ensures inp != [] && inp[0] != SOH && inp[0] != EOT ==> Eventually(s, inp, stale, output) == (s, output, Done)
    ensures inp != [] && inp[0] == SOH ==>
              var t, u := Taken(s, inp), Taken(s, inp).(at := s.at + PKTLEN, sno := Increment(s.sno));
              if |inp| < PKTLEN + 5 then Eventually(s, inp, stale, output) == (t, output, Waiting)
              else if !Acceptable(s, inp, stale) then Eventually(s, inp, stale, output) == (t, output + [CAN], Done)
              else RxOk(u) && Eventually(s, inp, stale, output)
                              == Eventually(u, inp[PKTLEN + 5..], stale, output + [ACK])
  {
    assert EOT[7] != SOH[7];
    assert output + [] == output;
    if inp != [] && inp[0] == SOH {
      ReceiveOne(s, inp, stale);
      if |inp| >= PKTLEN + 5 && Acceptable(s, inp, stale) {
        var u := Taken(s, inp).(at := s.at + PKTLEN, sno := Increment(s.sno));
        var more := Receive(u, inp[PKTLEN + 5..], stale).1;
        assert output + ([ACK] + more) == output + [ACK] + more;
      }
    }
  }

  /** The receiver after as much of a packet as has arrived. */
  function Taken(s: Rx, inp: seq<Octet>): Rx
    requires RxOk(s)
  {
    if |inp| < 3 then s else Store(s, inp[3..Min(|inp|, PKTLEN + 3)])
  }

  lemma TakenIsStored(s: Rx, inp: seq<Octet>, t: Rx)
    requires RxOk(s) && |inp| >= 3 && |t.buf| == |s.buf| && t.at == s.at && t.sno == s.sno
    requires var m := Min(PKTLEN, |inp| - 3);
             && t.size == s.size - Min(m, s.size)
             && forall i :: 0 <= i < |s.buf| ==>
                  t.buf[i] == if s.at <= i < s.at + Min(m, s.size) then inp[3..][i - s.at] else s.buf[i]
    ensures t == Taken(s, inp)
  {
    var bytes := inp[3..Min(|inp|, PKTLEN + 3)];
    var u := Store(s, bytes);
    forall i | 0 <= i < |s.buf|
      ensures t.buf[i] == u.buf[i]
    {
    }
    assert t.buf == u.buf;
  }

  /** One packet taken off the front of a reception. */
  lemma ReceiveOne(s: Rx, inp: seq<Octet>, stale: nat -> (Octet, Octet))
    requires RxOk(s) && inp != [] && inp[0] == SOH
    ensures var t, u := Taken(s, inp), Taken(s, inp).(at := s.at + PKTLEN, sno := Increment(s.sno));
            && (|inp| >= PKTLEN + 5 ==> RxOk(u))
            && var r := Receive(s, inp, stale);
               if |inp| < PKTLEN + 5 then r == (t, [], Waiting)
               else if !Acceptable(s, inp, stale) then r == (t, [CAN], Done)
               else var rest := Receive(u, inp[PKTLEN + 5..], stale); r == (rest.0, [ACK] + rest.1, rest.2)
  {
  }

  lemma CrcSnoc(d: seq<Octet>, b: Octet)
    ensures CrcOf(d + [b]) == Step(b, CrcOf(d))
  {
    OfAppend(d, [b], Zeros(16));
    assert [b][1..] == [];
    assert Of([b], CrcOf(d)) == Of([], Step(b, CrcOf(d)));
  }

  lemma RoundedCovers(length: nat)
    requires length > 0
    ensures Rounded(length) / PKTLEN > 0 && Covers(Rounded(length) / PKTLEN, length)
    ensures PKTLEN * (Rounded(length) / PKTLEN) == Rounded(length)
  {
  }

  lemma QIsNotStart()
    ensures LETTER_Q != NAK && LETTER_Q != LETTER_C
  {
    assert LETTER_Q[2] != NAK[2] && LETTER_Q[2] != LETTER_C[2];
  }

  /** One packet and its reply, taken off the front of what is sent. */
  lemma SendingOne(data: seq<Octet>, at: nat, size: nat, sno: Octet, left: nat, replies: seq<Octet>, before: seq<Octet>)
    requires left > 0 && (size == 0 || at + size <= |data|)
    ensures before + Sending(data, at, size, sno, left, replies)
         == before + Packet(PacketData(data, at, size), sno)
            + if replies == [] then []
              else if replies[0] != ACK then Sending(data, at, Less(size), sno, left, replies[1..])
              else if left == 1 then [EOT]
              else Sending(data, at + PKTLEN, Less(size), Increment(sno), left - 1, replies[1..])
  {
  }

  lemma AssemblePacket(before: seq<Octet>, d: seq<Octet>, sno: Octet)
    ensures before + [SOH] + [sno] + [Invert(sno)] + d + [High(CrcOf(d))] + [Low(CrcOf(d))] == before + Packet(d, sno)
  {
  }

  lemma SamePacketData(data: seq<Octet>, prefix: seq<Octet>, at: nat, size: nat)
    requires prefix <= data && (size == 0 || at + size <= |prefix|)
    ensures PacketData(data, at, size) == PacketData(prefix, at, size)
  {
  }
}
