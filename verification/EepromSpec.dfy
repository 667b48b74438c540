/** What the emulated EEPROM is for: a flat array of bytes. And what a write does to it. */
module EepromSpec {
  import opened Bytes
  import opened Flash

  /** The flat contract: `data` replaces the bytes from `address` on. */
  function Splice(c: seq<byte>, address: nat, data: seq<byte>): (r: seq<byte>)
    requires address + |data| <= |c|
    ensures |r| == |c|
  {
    c[..address] + data + c[address + |data|..]
  }

  /** The write loop on the buffered row. Cell 256 lies just past the row and belongs to no row;
      after it the loop starts over at the first byte of the same row. */
  function WriteBytes(row: seq<byte>, index: nat, data: seq<byte>): (r: seq<byte>)
    requires |row| == ROW_SIZE && index <= ROW_SIZE
    ensures |r| == ROW_SIZE
    decreases data
  {
    if data == [] then row
    else WriteBytes(if index < ROW_SIZE then row[index := data[0]] else row,
                    if index < ROW_SIZE then index + 1 else 0,
                    data[1..])
  }

  function RowStart(address: nat): nat {
    address - address % ROW_SIZE
  }

  /** The contents after a write at `address`: only the row of `address` changes. */
  function AfterWrite(c: seq<byte>, address: nat, data: seq<byte>): (r: seq<byte>)
    requires |c| % ROW_SIZE == 0 && address < |c|
    ensures |r| == |c|
  {
    var start := RowStart(address);
    c[..start] + WriteBytes(c[start..start + ROW_SIZE], address % ROW_SIZE, data) + c[start + ROW_SIZE..]
  }

  /** How to recognise it: the row is written, and all around it is as it was. */
  lemma AfterWriteOfParts(c: seq<byte>, d: seq<byte>, address: nat, start: nat, data: seq<byte>)
    requires |c| == |d| && |c| % ROW_SIZE == 0 && address < |c| && start == RowStart(address) && start + ROW_SIZE <= |c|
    requires d[start..start + ROW_SIZE] == WriteBytes(c[start..start + ROW_SIZE], address % ROW_SIZE, data)
    requires forall i :: 0 <= i < |c| && !(start <= i < start + ROW_SIZE) ==> d[i] == c[i]
    ensures d == AfterWrite(c, address, data)
  {
    assert d == d[..start] + d[start..start + ROW_SIZE] + d[start + ROW_SIZE..];
    assert d[..start] == c[..start] && d[start + ROW_SIZE..] == c[start + ROW_SIZE..];
  }

  lemma {:induction false} WriteInsideRow(row: seq<byte>, index: nat, data: seq<byte>)
    requires |row| == ROW_SIZE && index + |data| <= ROW_SIZE
    ensures WriteBytes(row, index, data) == Splice(row, index, data)
    decreases data
  {
    if data != [] {
      var next := row[index := data[0]];
      WriteInsideRow(next, index + 1, data[1..]);
      assert Splice(next, index + 1, data[1..]) == Splice(row, index, data);
    } else {
      assert Splice(row, index, data) == row;
    }
  }

  /** The cell of the row that byte i of a write goes to, the one past the row included. */
  function Cell(index: nat, i: nat): nat {
    (index + i) % (ROW_SIZE + 1)
  }

  lemma CellOfTail(index: nat, next: nat, i: nat)
    requires index <= ROW_SIZE && next == (if index < ROW_SIZE then index + 1 else 0)
    ensures Cell(index, 0) == index && Cell(next, i) == Cell(index, i + 1)
  {
    if index == ROW_SIZE {
      OnceAround(i);
    }
  }

  lemma OnceAround(i: nat)
    ensures (ROW_SIZE + (i + 1)) % (ROW_SIZE + 1) == i % (ROW_SIZE + 1)
  {
  }

  /** A write of any length leaves alone the cells that none of its bytes goes to, ... */
  lemma {:induction false} CellKept(row: seq<byte>, index: nat, data: seq<byte>, j: nat)
    requires |row| == ROW_SIZE && index <= ROW_SIZE && j < ROW_SIZE
    requires forall i :: 0 <= i < |data| ==> Cell(index, i) != j
    ensures WriteBytes(row, index, data)[j] == row[j]
    decreases data
  {
    if data != [] {
      var next := if index < ROW_SIZE then index + 1 else 0;
      CellOfTail(index, next, 0);
      forall i | 0 <= i < |data[1..]|
        ensures Cell(next, i) != j
      {
        CellOfTail(index, next, i);
      }
      CellKept(if index < ROW_SIZE then row[index := data[0]] else row, next, data[1..], j);
    }
  }

  /** ... and in each other the last of the bytes that go to it. */
  lemma {:induction false} CellWritten(row: seq<byte>, index: nat, data: seq<byte>, j: nat, i: nat)
    requires |row| == ROW_SIZE && index <= ROW_SIZE && j < ROW_SIZE && i < |data|
    requires Cell(index, i) == j && forall m :: i < m < |data| ==> Cell(index, m) != j
    ensures WriteBytes(row, index, data)[j] == data[i]
    decreases data
  {
    var next, tail := if index < ROW_SIZE then index + 1 else 0, data[1..];
    var row' := if index < ROW_SIZE then row[index := data[0]] else row;
    forall m | i <= m < |tail|
      ensures Cell(next, m) != j
    {
      CellOfTail(index, next, m);
    }
    if i == 0 {
      CellOfTail(index, next, 0);
      CellKept(row', next, tail, j);
    } else {
      CellOfTail(index, next, i - 1);
      CellWritten(row', next, tail, j, i - 1);
    }
  }

  /** A write that stays inside one row meets the flat contract. */
  lemma SingleRowWrite(c: seq<byte>, address: nat, data: seq<byte>)
    requires |c| % ROW_SIZE == 0 && address < |c| && address % ROW_SIZE + |data| <= ROW_SIZE
    ensures address + |data| <= |c|
    ensures AfterWrite(c, address, data) == Splice(c, address, data)
  {
    var start, index := RowStart(address), address % ROW_SIZE;
    WriteInsideRow(c[start..start + ROW_SIZE], index, data);
    SpliceInside(c, start, start + ROW_SIZE, index, address, data);
  }

  lemma SpliceInside(c: seq<byte>, start: nat, end: nat, index: nat, address: nat, data: seq<byte>)
    requires start <= end <= |c| && index + |data| <= end - start && address == start + index
    ensures c[..start] + Splice(c[start..end], index, data) + c[end..] == Splice(c, address, data)
  {
    var d := c[start..end];
    assert d[..index] == c[start..address] && d[index + |data|..] == c[address + |data|..end];
    assert c[..address] == c[..start] + c[start..address];
    assert c[address + |data|..] == c[address + |data|..end] + c[end..];
  }

  /** A write into the next row never arrives there. */
  lemma CrossingByteIsLost(c: seq<byte>, address: nat, data: seq<byte>)
    requires |c| % ROW_SIZE == 0 && address + |data| <= |c| && address % ROW_SIZE + |data| > ROW_SIZE
    ensures var k := ROW_SIZE - address % ROW_SIZE;
            && AfterWrite(c, address, data)[address + k] == c[address + k]
            && Splice(c, address, data)[address + k] == data[k]
  {
  }

  /** The driver meets the flat contract on every contents exactly for the writes that stay
      inside one row. */
  lemma WriteMeetsContractIff(size: nat, address: nat, data: seq<byte>)
    requires size % ROW_SIZE == 0 && address < size && address + |data| <= size
    ensures (forall c: seq<byte> :: |c| == size ==> AfterWrite(c, address, data) == Splice(c, address, data))
       <==> address % ROW_SIZE + |data| <= ROW_SIZE
  {
    if address % ROW_SIZE + |data| <= ROW_SIZE {
      forall c: seq<byte> | |c| == size
        ensures AfterWrite(c, address, data) == Splice(c, address, data)
      {
        SingleRowWrite(c, address, data);
      }
    } else {
      var k := ROW_SIZE - address % ROW_SIZE;
      var other: byte := if data[k] == 0 then 1 else 0;
      var c := seq(size, _ => other);
      CrossingByteIsLost(c, address, data);
      assert AfterWrite(c, address, data) != Splice(c, address, data);
    }
  }

  // ----- Runs

  datatype Op =
    | Read(address: nat, length: nat)
    | Write(address: nat, data: seq<byte>)
    | Flush

  /** Writes that start in the region and stay inside one row. */
  predicate SingleRowOps(size: nat, ops: seq<Op>) {
    forall op :: op in ops && op.Write? ==>
      op.address < size && op.address % ROW_SIZE + |op.data| <= ROW_SIZE
  }

  function Apply(c: seq<byte>, op: Op): (r: seq<byte>)
    requires |c| % ROW_SIZE == 0 && (op.Write? ==> op.address < |c|)
    ensures |r| == |c|
  {
    if op.Write? then AfterWrite(c, op.address, op.data) else c
  }

  function ApplyAll(c: seq<byte>, ops: seq<Op>): (r: seq<byte>)
    requires |c| % ROW_SIZE == 0 && SingleRowOps(|c|, ops)
    ensures |r| == |c|
    decreases ops
  {
    if ops == [] then c
    else ApplyAll(Apply(c, ops[0]), ops[1..])
  }

  /** What a reader is handed: the stretch asked for, or nothing if it reaches beyond the region. */
  function Answer(c: seq<byte>, op: Op): seq<seq<byte>> {
    if !op.Read? then []
    else if op.address + op.length <= |c| then [c[op.address..op.address + op.length]]
    else [[]]
  }

  function Answers(c: seq<byte>, ops: seq<Op>): seq<seq<byte>>
    requires |c| % ROW_SIZE == 0 && SingleRowOps(|c|, ops)
    decreases ops
  {
    if ops == [] then []
    else Answer(c, ops[0]) + Answers(Apply(c, ops[0]), ops[1..])
  }

  /** The byte at `i` after the operations, looked up from the last of them backwards. */
  function LastWritten(c: seq<byte>, ops: seq<Op>, i: nat): byte
    requires i < |c|
    decreases ops
  {
    if ops == [] then c[i]
    else
      var op := ops[|ops| - 1];
      if op.Write? && op.address <= i < op.address + |op.data| then op.data[i - op.address]
      else LastWritten(c, ops[..|ops| - 1], i)
  }

  lemma {:induction false} ApplyAllSnoc(c: seq<byte>, ops: seq<Op>, op: Op)
    requires |c| % ROW_SIZE == 0 && SingleRowOps(|c|, ops + [op])
    ensures SingleRowOps(|c|, ops)
    ensures op.Write? ==> op.address < |c|
    ensures ApplyAll(c, ops + [op]) == Apply(ApplyAll(c, ops), op)
    decreases ops
  {
    assert op in ops + [op];
    assert forall o :: o in ops ==> o in ops + [op];
    if ops == [] {
      assert ops + [op] == [op];
      assert [op][1..] == [];
      assert ApplyAll(c, [op]) == ApplyAll(Apply(c, op), []);
    } else {
      assert (ops + [op])[1..] == ops[1..] + [op];
      assert forall o :: o in ops[1..] + [op] ==> o in ops + [op];
      assert ops[0] in ops;
      ApplyAllSnoc(Apply(c, ops[0]), ops[1..], op);
    }
  }

  /** Over any run of reads, flushes and single-row writes, every byte is the last one written
      there, or the one it started with. */
  lemma {:induction false} RunHoldsLastWritten(c: seq<byte>, ops: seq<Op>, i: nat)
    requires |c| % ROW_SIZE == 0 && SingleRowOps(|c|, ops) && i < |c|
    ensures ApplyAll(c, ops)[i] == LastWritten(c, ops, i)
    decreases ops
  {
    if ops != [] {
      var front, op := ops[..|ops| - 1], ops[|ops| - 1];
      assert ops == front + [op];
      ApplyAllSnoc(c, front, op);
      RunHoldsLastWritten(c, front, i);
      if op.Write? {
        SingleRowWrite(ApplyAll(c, front), op.address, op.data);
      }
    }
  }

  /** The bytes last written to a stretch. */
  function Stored(c: seq<byte>, ops: seq<Op>, address: nat, length: nat): (r: seq<byte>)
    requires address + length <= |c|
    ensures |r| == length
  {
    if length == 0 then []
    else Stored(c, ops, address, length - 1) + [LastWritten(c, ops, address + length - 1)]
  }

  lemma {:induction false} RunHoldsStored(c: seq<byte>, ops: seq<Op>, address: nat, length: nat)
    requires |c| % ROW_SIZE == 0 && SingleRowOps(|c|, ops) && address + length <= |c|
    ensures ApplyAll(c, ops)[address..address + length] == Stored(c, ops, address, length)
  {
    if length > 0 {
      var n, last := length - 1, address + length - 1;
      RunHoldsStored(c, ops, address, n);
      RunHoldsLastWritten(c, ops, last);
      OneByteMore(ApplyAll(c, ops), address, last, last + 1);
    }
  }

  lemma OneByteMore(d: seq<byte>, from: nat, last: nat, end: nat)
    requires from <= last < |d| && end == last + 1
    ensures d[from..end] == d[from..last] + [d[last]]
  {
  }

  /** And so a read after such a run is handed, byte by byte, what was last written there. */
  lemma ReadsLastWritten(c: seq<byte>, ops: seq<Op>, op: Op, all: seq<Op>)
    requires |c| % ROW_SIZE == 0 && SingleRowOps(|c|, ops) && all == ops + [op]
    requires op.Read? && op.address + op.length <= |c|
    ensures SingleRowOps(|c|, all)
    ensures Answers(c, all) == Answers(c, ops) + [Stored(c, ops, op.address, op.length)]
  {
    AnswersSnoc(c, ops, op, all);
    RunHoldsStored(c, ops, op.address, op.length);
  }

  /** Of the operations, begun with contents c, the first i have been performed: they have left the
      contents d and handed out the answers given. */
  predicate Performed(c: seq<byte>, ops: seq<Op>, i: nat, d: seq<byte>, answers: seq<seq<byte>>)
    requires |c| == |d| && |c| % ROW_SIZE == 0 && SingleRowOps(|c|, ops) && i <= |ops|
  {
    ApplyAll(d, ops[i..]) == ApplyAll(c, ops) && answers + Answers(d, ops[i..]) == Answers(c, ops)
  }

  lemma OneMorePerformed(c: seq<byte>, ops: seq<Op>, i: nat, m: nat, d: seq<byte>, answers: seq<seq<byte>>)
    requires |c| == |d| && |c| % ROW_SIZE == 0 && SingleRowOps(|c|, ops) && i < |ops| && m == i + 1
    requires Performed(c, ops, i, d, answers)
    ensures ops[i].Write? ==> ops[i].address < |d|
    ensures Performed(c, ops, m, Apply(d, ops[i]), answers + Answer(d, ops[i]))
  {
    assert ops[i] in ops && ops[i..][1..] == ops[m..];
    AnswersInOrder(answers, Answer(d, ops[i]), Answers(Apply(d, ops[i]), ops[m..]));
  }

  lemma AnswersInOrder(x: seq<seq<byte>>, y: seq<seq<byte>>, z: seq<seq<byte>>)
    ensures x + (y + z) == x + y + z
  {
  }

  lemma {:induction false} AnswersSnoc(c: seq<byte>, ops: seq<Op>, op: Op, all: seq<Op>)
    requires |c| % ROW_SIZE == 0 && SingleRowOps(|c|, ops) && op.Read? && all == ops + [op]
    ensures SingleRowOps(|c|, all)
    ensures Answers(c, all) == Answers(c, ops) + Answer(ApplyAll(c, ops), op)
    decreases ops
  {
    if ops == [] {
      OneAnswer(c, op, all);
    } else {
      assert all[0] == ops[0] && all[1..] == ops[1..] + [op];
      assert ops[0] in ops;
      var d := Apply(c, ops[0]);
      AnswersSnoc(d, ops[1..], op, all[1..]);
      AnswersInOrder(Answer(c, ops[0]), Answers(d, ops[1..]), Answer(ApplyAll(d, ops[1..]), op));
    }
  }

  lemma OneAnswer(c: seq<byte>, op: Op, all: seq<Op>)
    requires |c| % ROW_SIZE == 0 && op.Read? && all == [op]
    ensures SingleRowOps(|c|, all) && Answers(c, all) == Answer(c, op)
  {
    assert all[1..] == [];
  }
}
