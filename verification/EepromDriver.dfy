/** The emulated-EEPROM driver: a one-row write-back cache over flash that refines a flat array
    of bytes. */
module EepromDriver {
  import opened Bytes
  import opened Flash
  import opened EepromSpec

  datatype Status = Ok | NvmReadError

  const NO_ROW := 255
  const ADDRESS_RANGE := 0x40_0000

  class SamdEmulatedEepromDriver {
    const flash: FlashMemory
    const globalStart: nat
    const regionSize: nat
    /** One row, and the cell just past it that an over-long write reaches. */
    const rowBuffer: array<byte>
    const pageBuffer: array<byte>
    var rowBufferAddress: nat
    var rowDataValid: bool
    var rowNeedsFlush: bool

    /** The layout of the region, and which row the buffer holds. */
    ghost predicate Shape()
      reads this
    {
      && globalStart % ROW_SIZE == 0 && regionSize % ROW_SIZE == 0 && regionSize <= 16384
      && globalStart + regionSize <= flash.mem.Length
      && rowBuffer.Length == ROW_SIZE + 1 && pageBuffer.Length == PAGE_SIZE
      && rowBuffer != pageBuffer && rowBuffer != flash.mem && pageBuffer != flash.mem
      && (if rowDataValid then (rowBufferAddress + 1) * ROW_SIZE <= regionSize else rowBufferAddress == NO_ROW)
    }

    /** The byte a reader should see: from the buffer if its row is buffered, else from flash. */
    ghost function ByteAt(i: nat): byte
      requires Shape() && i < regionSize
      reads this, rowBuffer, flash.mem
    {
      if rowDataValid && rowBufferAddress * ROW_SIZE <= i < (rowBufferAddress + 1) * ROW_SIZE
      then rowBuffer[i - rowBufferAddress * ROW_SIZE]
      else flash.mem[globalStart + i]
    }

    ghost function Contents(): (c: seq<byte>)
      requires Shape()
      reads this, rowBuffer, flash.mem
      ensures |c| == regionSize
      ensures forall i :: 0 <= i < regionSize ==> c[i] == ByteAt(i)
    {
      seq(regionSize, i requires 0 <= i < regionSize && Shape() reads this, rowBuffer, flash.mem => ByteAt(i))
    }

    /** Flash itself holds what a reader should see. */
    ghost predicate Clean()
      requires Shape()
      reads this, rowBuffer, flash.mem
    {
      forall i :: 0 <= i < regionSize ==> ByteAt(i) == flash.mem[globalStart + i]
    }

    ghost predicate Valid()
      reads this, rowBuffer, flash.mem
    {
      Shape() && (rowNeedsFlush || Clean())
    }

    /** Nothing outside the emulated region has changed. */
    twostate predicate OutsideUnchanged()
      reads flash.mem
    {
      forall i :: 0 <= i < flash.mem.Length && !(globalStart <= i < globalStart + regionSize) ==>
        flash.mem[i] == old(flash.mem[i])
    }

    constructor (flash: FlashMemory, globalStart: nat, regionSize: nat)
      requires globalStart % ROW_SIZE == 0 && regionSize % ROW_SIZE == 0 && regionSize <= 16384
      requires globalStart + regionSize <= flash.mem.Length
      ensures this.flash == flash && this.globalStart == globalStart && this.regionSize == regionSize
      ensures Valid() && Contents() == flash.mem[globalStart..globalStart + regionSize]
      ensures fresh(rowBuffer) && fresh(pageBuffer)
    {
      this.flash, this.globalStart, this.regionSize := flash, globalStart, regionSize;
      rowBuffer := new byte[ROW_SIZE + 1](_ => 0);
      pageBuffer := new byte[PAGE_SIZE](_ => 0);
      rowDataValid, rowNeedsFlush, rowBufferAddress := false, false, NO_ROW;
    }

    // ----- Address mapping

    function PageOf(address: nat): nat {
      address / PAGE_SIZE % 0x10000
    }

    function RowOfPage(page: nat): nat {
      page / ROW_PAGES
    }

    function AddressInPage(address: nat): int {
      (address - PageOf(address) * PAGE_SIZE) % 0x100
    }

    /** Page numbers are 16-bit, so that addresses repeat every 4 MB. */
    function Local(address: nat): (r: nat)
      ensures address < ADDRESS_RANGE ==> r == address
    {
      address % ADDRESS_RANGE
    }

    lemma AddressParts(address: nat, local: nat)
      requires local == Local(address)
      ensures var page := PageOf(address);
              var row := RowOfPage(page);
              && 0 <= AddressInPage(address) < PAGE_SIZE && 0 <= page - row * ROW_PAGES < ROW_PAGES
              && (page - row * ROW_PAGES) * PAGE_SIZE + AddressInPage(address) == local % ROW_SIZE
              && row == local / ROW_SIZE
    {
      WrappedParts(address / ADDRESS_RANGE, local);
      RowParts(local);
    }

    lemma RowParts(local: nat)
      ensures local / PAGE_SIZE / ROW_PAGES == local / ROW_SIZE
      ensures (local / PAGE_SIZE - local / PAGE_SIZE / ROW_PAGES * ROW_PAGES) * PAGE_SIZE + local % PAGE_SIZE == local % ROW_SIZE
    {
    }

    lemma WrappedParts(k: nat, local: nat)
      requires local < ADDRESS_RANGE
      ensures PageOf(ADDRESS_RANGE * k + local) == local / PAGE_SIZE
      ensures AddressInPage(ADDRESS_RANGE * k + local) == local % PAGE_SIZE
    {
      var page, at := local / PAGE_SIZE, local % PAGE_SIZE;
      PageQuotient(0x10000 * k + page, at);
      PageNumber(k, page);
      LowByte(0x4000 * k, at);
    }

    lemma PageQuotient(q: nat, r: nat)
      requires r < PAGE_SIZE
      ensures (PAGE_SIZE * q + r) / PAGE_SIZE == q
    {
    }

    lemma PageNumber(q: nat, r: nat)
      requires r < 0x10000
      ensures (0x10000 * q + r) % 0x10000 == r
    {
    }

    lemma LowByte(q: nat, r: nat)
      requires r < 0x100
      ensures (0x100 * q + r) % 0x100 == r
    {
    }

    // ----- Rows and pages

    method ReadPage(data: array<byte>, at: nat, page: nat) returns (status: Status)
      requires Shape() && data != flash.mem && at + PAGE_SIZE <= data.Length
      modifies data
      ensures status == if (page + 1) * PAGE_SIZE <= regionSize then Ok else NvmReadError
      ensures forall k :: 0 <= k < data.Length ==>
                data[k] == if status == Ok && at <= k < at + PAGE_SIZE
                           then flash.mem[globalStart + page * PAGE_SIZE + (k - at)] else old(data[k])
    {
      if (page + 1) * PAGE_SIZE > regionSize {
        return NvmReadError;
      }
      flash.ReadBuffer(page * PAGE_SIZE + globalStart, data, at, PAGE_SIZE);
      status := Ok;
    }

    lemma RowFits(row: nat)
      requires regionSize % ROW_SIZE == 0
      ensures row * ROW_SIZE + PAGE_SIZE <= regionSize <==> (row + 1) * ROW_SIZE <= regionSize
    {
    }

    twostate lemma SameBufferStaysClean()
      requires old(Shape()) && Shape() && old(Clean()) && unchanged(this) && unchanged(flash.mem)
      requires rowBuffer[..] == old(rowBuffer[..])
      ensures Clean() && Contents() == old(Contents())
    {
      forall k | 0 <= k < ROW_SIZE
        ensures rowBuffer[k] == old(rowBuffer[k])
      {
        assert rowBuffer[..][k] == old(rowBuffer[..])[k];
      }
      assert forall i :: 0 <= i < regionSize ==> ByteAt(i) == old(ByteAt(i));
    }

    method ReadRowIntoRowBuffer(row: nat) returns (status: Status)
      requires Shape() && Clean() && row < 0x4000
      modifies this`rowBufferAddress, this`rowNeedsFlush, this`rowDataValid, rowBuffer
      ensures Valid()
      ensures status == if (row + 1) * ROW_SIZE <= regionSize then Ok else NvmReadError
      ensures status == Ok ==> rowDataValid && rowBufferAddress == row && !rowNeedsFlush
      ensures status != Ok ==> unchanged(this) && rowBuffer[..] == old(rowBuffer[..])
      ensures Contents() == old(Contents())
    {
      var page := row * ROW_PAGES;
      status := Ok;
      RowFits(row);
      for i := 0 to ROW_PAGES
        invariant page == row * ROW_PAGES + i && status == Ok
        invariant i > 0 ==> (row + 1) * ROW_SIZE <= regionSize
        invariant unchanged(this) && (i == 0 ==> unchanged(rowBuffer))
        invariant forall k :: 0 <= k < i * PAGE_SIZE ==> rowBuffer[k] == flash.mem[globalStart + row * ROW_SIZE + k]
      {
        status := ReadPage(rowBuffer, i * PAGE_SIZE, page);
        if status != Ok {
          assert i == 0 && rowBuffer[..] == old(rowBuffer[..]);
          SameBufferStaysClean();
          return;
        }
        page := page + 1;
      }
      rowBufferAddress := row;
      rowNeedsFlush := false;
      rowDataValid := true;
    }

    static lemma PageAligned(start: nat, page: nat)
      requires start % ROW_SIZE == 0
      ensures (start + page * PAGE_SIZE) % PAGE_SIZE == 0
    {
      assert start == ROW_SIZE * (start / ROW_SIZE);
      assert start + page * PAGE_SIZE == PAGE_SIZE * (ROW_PAGES * (start / ROW_SIZE) + page);
    }

    method WriteRowFromBuffer(row: nat)
      requires Shape() && (row + 1) * ROW_SIZE <= regionSize
      requires forall i :: 0 <= i - globalStart - row * ROW_SIZE < ROW_SIZE ==> flash.mem[i] == EMPTY_BYTE
      requires forall p :: p in flash.programmed ==> !(0 <= p - globalStart - row * ROW_SIZE < ROW_SIZE)
      modifies flash, flash.mem
      ensures forall i :: 0 <= i < flash.mem.Length ==>
                flash.mem[i] == if 0 <= i - globalStart - row * ROW_SIZE < ROW_SIZE
                                then rowBuffer[i - globalStart - row * ROW_SIZE] else old(flash.mem[i])
    {
      ghost var base := globalStart + row * ROW_SIZE;
      for i := 0 to ROW_PAGES
        invariant forall p :: p in flash.programmed ==> !(base + i * PAGE_SIZE <= p < base + ROW_SIZE)
        invariant forall k :: 0 <= k < flash.mem.Length ==>
                    flash.mem[k] == if base <= k < base + i * PAGE_SIZE then rowBuffer[k - base] else old(flash.mem[k])
      {
        var page := row * ROW_PAGES + i;
        PageAligned(globalStart, page);
        ProgramErasedPage(globalStart + page * PAGE_SIZE, PAGE_SIZE * i);
      }
    }

    method ProgramErasedPage(at: nat, from: nat)
      requires at % PAGE_SIZE == 0 && at + PAGE_SIZE <= flash.mem.Length && at !in flash.programmed
      requires from + PAGE_SIZE <= rowBuffer.Length && rowBuffer != flash.mem
      requires forall i :: at <= i < at + PAGE_SIZE ==> flash.mem[i] == EMPTY_BYTE
      modifies flash, flash.mem
      ensures flash.programmed == old(flash.programmed) + {at}
      ensures forall k :: 0 <= k < flash.mem.Length ==>
                flash.mem[k] == if at <= k < at + PAGE_SIZE then rowBuffer[from + (k - at)] else old(flash.mem[k])
    {
      flash.ProgramPage(at, rowBuffer, from);
      forall k | at <= k < at + PAGE_SIZE
        ensures flash.mem[k] == rowBuffer[from + (k - at)]
      {
        assert old(flash.mem[k]) == EMPTY_BYTE;
        ErasedTakesAnything(rowBuffer[from + (k - at)]);
      }
    }

    /** Writes the buffered row back. What a reader sees does not change, and afterwards flash
        holds exactly that. */
    method FlushRow()
      requires Valid()
      modifies this`rowNeedsFlush, flash, flash.mem
      ensures Valid() && Clean()
      ensures Contents() == old(Contents())
      ensures OutsideUnchanged()
    {
      if !rowNeedsFlush || !rowDataValid {
        return;
      }
      flash.EraseRow(globalStart + rowBufferAddress * ROW_SIZE);
      WriteRowFromBuffer(rowBufferAddress);
      rowNeedsFlush := false;
      assert Contents() == old(Contents());
    }

    // ----- The interface

    /** Reads any stretch of the region; beyond it, fails and reads nothing. */
    method Read(data: array<byte>, length: nat, address: nat) returns (status: Status)
      requires Valid() && length <= data.Length && length < 0x10000 && address + length < 0x1_0000_0000
      requires data != flash.mem && data != rowBuffer && data != pageBuffer
      modifies this`rowNeedsFlush, pageBuffer, flash, flash.mem, data
      ensures Valid() && Clean() && Contents() == old(Contents()) && OutsideUnchanged()
      ensures status == if address + length <= regionSize then Ok else NvmReadError
      ensures forall k :: 0 <= k < data.Length ==>
                data[k] == if status == Ok && k < length then old(Contents())[address + k] else old(data[k])
    {
      FlushRow();
      if address + length > regionSize {
        return NvmReadError;
      }
      ReadPages(data, length, address);
      status := Ok;
    }

    method ReadPages(data: array<byte>, length: nat, address: nat)
      requires Shape() && Clean() && length <= data.Length && address + length <= regionSize
      requires data != flash.mem && data != rowBuffer && data != pageBuffer
      modifies pageBuffer, data
      ensures Contents() == old(Contents())
      ensures forall k :: 0 <= k < data.Length ==> data[k] == if k < length then Contents()[address + k] else old(data[k])
    {
      ghost var c := Contents();
      var startPage, endPage := address / PAGE_SIZE, (address + length) / PAGE_SIZE;
      var page, done := startPage, 0;
      while page <= endPage
        modifies pageBuffer, data
        invariant startPage <= page <= endPage + 1 && done == ReadBefore(page, address, length)
        invariant Contents() == c
        invariant forall k :: 0 <= k < data.Length ==> data[k] == if k < done then c[address + k] else old(data[k])
      {
        var readStart, readLength := NextStretch(page, startPage, endPage, address, length);
        if readLength == 0 {
          break;
        }
        ReadStretch(page, page == startPage, readStart, readLength, data, done);
        done := done + readLength;
        page := page + 1;
      }
    }

    method ReadStretch(page: nat, firstPage: bool, readStart: nat, readLength: nat, data: array<byte>, done: nat)
      requires Shape() && Clean() && 0 < readLength <= PAGE_SIZE && readStart + readLength <= regionSize
      requires done + readLength <= data.Length
      requires if firstPage then done == 0 && page * PAGE_SIZE <= readStart && readStart + readLength <= (page + 1) * PAGE_SIZE
               else readStart == page * PAGE_SIZE
      requires data != flash.mem && data != rowBuffer && data != pageBuffer
      modifies pageBuffer, data
      ensures Contents() == old(Contents())
      ensures forall k :: 0 <= k < data.Length ==>
                data[k] == if done <= k < done + readLength then Contents()[readStart + (k - done)] else old(data[k])
    {
      if firstPage {
        PageInRegion(page, readStart);
        ReadWithinPage(page, readStart, data, readLength);
      } else {
        PageAligned(globalStart, page);
        flash.ReadBuffer(globalStart + readStart, data, done, readLength);
      }
    }

    lemma PageInRegion(page: nat, address: nat)
      requires regionSize % ROW_SIZE == 0 && page * PAGE_SIZE <= address < regionSize
      ensures (page + 1) * PAGE_SIZE <= regionSize
    {
    }

    /** How many of the bytes lie before the page. */
    static function ReadBefore(page: nat, address: nat, length: nat): nat {
      if page * PAGE_SIZE <= address then 0
      else if page * PAGE_SIZE <= address + length then page * PAGE_SIZE - address
      else length
    }

    /** What there is to be read from one page: the bytes that lie in it and not before. */
    static method NextStretch(page: nat, startPage: nat, endPage: nat, address: nat, length: nat)
      returns (readStart: nat, readLength: nat)
      requires startPage == address / PAGE_SIZE && endPage == (address + length) / PAGE_SIZE && startPage <= page <= endPage
      ensures readLength == ReadBefore(page + 1, address, length) - ReadBefore(page, address, length)
      ensures readLength > 0 ==> readStart == address + ReadBefore(page, address, length)
      ensures readLength == 0 ==> ReadBefore(page, address, length) == length
      ensures readLength <= PAGE_SIZE && ReadBefore(page, address, length) + readLength <= length
      ensures page == startPage ==> page * PAGE_SIZE <= readStart && readStart + readLength <= (page + 1) * PAGE_SIZE
      ensures page > startPage ==> readStart == page * PAGE_SIZE
    {
      if startPage == endPage {
        readStart, readLength := address, length;
      } else if page == startPage {
        readStart, readLength := address, (startPage + 1) * PAGE_SIZE - address;
      } else if page == endPage {
        readStart, readLength := endPage * PAGE_SIZE, address + length - endPage * PAGE_SIZE;
      } else {
        readStart, readLength := page * PAGE_SIZE, PAGE_SIZE;
      }
    }

    /** A read that does not start at a page boundary goes through the page buffer. */
    method ReadWithinPage(page: nat, address: nat, data: array<byte>, length: nat)
      requires Shape() && Clean() && (page + 1) * PAGE_SIZE <= regionSize
      requires page * PAGE_SIZE <= address && address + length <= (page + 1) * PAGE_SIZE && length <= data.Length
      requires data != flash.mem && data != rowBuffer && data != pageBuffer
      modifies pageBuffer, data
      ensures Contents() == old(Contents())
      ensures forall k :: 0 <= k < data.Length ==>
                data[k] == if k < length then Contents()[address + k] else old(data[k])
    {
      var status := ReadPage(pageBuffer, 0, page);
      var inPage := address - page * PAGE_SIZE;
      forall k | 0 <= k < length {
        data[k] := pageBuffer[inPage + k];
      }
    }

    ghost predicate InBufferedRow(i: int)
      reads this
    {
      rowDataValid && rowBufferAddress * ROW_SIZE <= i < (rowBufferAddress + 1) * ROW_SIZE
    }

    /** The write loop. A byte past the end of the row goes into the cell behind the buffer, and
        the loop goes on at the first byte of the same row. */
    method FillRow(data: array<byte>, length: nat, index: nat)
      requires Valid() && length <= data.Length && index < ROW_SIZE
      requires data != flash.mem && data != rowBuffer && data != pageBuffer
      modifies this`rowNeedsFlush, rowBuffer, flash, flash.mem
      ensures Valid() && OutsideUnchanged()
      ensures rowBuffer[..ROW_SIZE] == WriteBytes(old(rowBuffer[..ROW_SIZE]), index, old(data[..length]))
      ensures forall i :: 0 <= i < regionSize && !InBufferedRow(i) ==> Contents()[i] == old(Contents())[i]
    {
      var indexInRow: nat := index;
      ghost var bytes := data[..length];
      for i := 0 to length
        invariant Shape() && indexInRow <= ROW_SIZE
        invariant OutsideUnchanged() && data[..length] == bytes
        invariant WriteBytes(rowBuffer[..ROW_SIZE], indexInRow, bytes[i..])
               == WriteBytes(old(rowBuffer[..ROW_SIZE]), index, bytes)
        invariant forall k :: 0 <= k < regionSize && !InBufferedRow(k) ==> Contents()[k] == old(Contents())[k]
      {
        assert bytes[i..][1..] == bytes[i + 1..];
        assert bytes[i] == data[i];
        ghost var row := rowBuffer[..ROW_SIZE];
        rowBuffer[indexInRow] := data[i];
        assert rowBuffer[..ROW_SIZE] == if indexInRow < ROW_SIZE then row[indexInRow := bytes[i]] else row;
        indexInRow := indexInRow + 1;
        if indexInRow > PAGE_SIZE * ROW_PAGES {
          rowNeedsFlush := true;
          FlushRow();
          indexInRow := 0;
        }
      }
      rowNeedsFlush := true;
    }

    /** Writes into the row of `address`, whatever the length. Outside the region it fails,
        except that an address in row 255 is taken for the row buffered at start-up; then
        nothing is stored. */
    method Write(data: array<byte>, length: nat, address: nat) returns (status: Status)
      requires Valid() && length <= data.Length && length < 0x10000
      requires data != flash.mem && data != rowBuffer && data != pageBuffer
      modifies this`rowBufferAddress, this`rowNeedsFlush, this`rowDataValid, rowBuffer, flash, flash.mem
      ensures Valid() && OutsideUnchanged()
      ensures Local(address) < regionSize ==> status == Ok
      ensures status == Ok ==> Local(address) < regionSize || (Local(address) / ROW_SIZE == NO_ROW && !old(rowDataValid))
      ensures Contents() == if Local(address) < regionSize then AfterWrite(old(Contents()), Local(address), old(data[..length]))
                            else old(Contents())
    {
      ghost var local := Local(address);
      AddressParts(address, local);
      ghost var c, bytes := Contents(), data[..length];
      var page := PageOf(address);
      var row := RowOfPage(page);
      var pageInRow, addressInPage := page - row * ROW_PAGES, AddressInPage(address);
      if rowBufferAddress != row {
        FlushRow();
        RowInRegion(local);
        status := ReadRowIntoRowBuffer(row);
        if status != Ok {
          return;
        }
      }
      assert data[..length] == bytes && Contents() == c;
      FillAt(data, length, local, pageInRow * PAGE_SIZE + addressInPage);
      status := Ok;
    }

    lemma RowInRegion(address: nat)
      requires regionSize % ROW_SIZE == 0
      ensures (address / ROW_SIZE + 1) * ROW_SIZE <= regionSize <==> address < regionSize
    {
    }

    /** With the row of `address` buffered, fills it and says so in terms of the contents. */
    method FillAt(data: array<byte>, length: nat, ghost address: nat, index: nat)
      requires Valid() && length <= data.Length && index == address % ROW_SIZE
      requires rowBufferAddress == address / ROW_SIZE
      requires data != flash.mem && data != rowBuffer && data != pageBuffer
      modifies this`rowNeedsFlush, rowBuffer, flash, flash.mem
      ensures Valid() && OutsideUnchanged()
      ensures address < regionSize <==> rowDataValid
      ensures Contents() == if address < regionSize then AfterWrite(old(Contents()), address, old(data[..length]))
                            else old(Contents())
    {
      RowInRegion(address);
      ghost var c, start, bytes := Contents(), RowStart(address), data[..length];
      assert start == rowBufferAddress * ROW_SIZE;
      BufferedRow(start);
      FillRow(data, length, index);
      BufferedRow(start);
      if rowDataValid {
        AfterWriteOfParts(c, Contents(), address, start, bytes);
      }
    }

    lemma BufferedRow(start: nat)
      requires Shape() && start == rowBufferAddress * ROW_SIZE
      ensures rowDataValid ==> Contents()[start..start + ROW_SIZE] == rowBuffer[..ROW_SIZE]
    {
    }

    // ----- Runs

    /** Lengths are 16-bit and addresses 32-bit numbers. */
    static predicate InWidth(op: Op) {
      match op
      case Read(address, length) => length < 0x10000 && address + length < 0x1_0000_0000
      case Write(address, data) => |data| < 0x10000
      case Flush => true
    }

    method Perform(op: Op) returns (answer: seq<seq<byte>>)
      requires Valid() && InWidth(op) && (op.Write? ==> op.address < regionSize)
      modifies this`rowBufferAddress, this`rowNeedsFlush, this`rowDataValid, rowBuffer, pageBuffer, flash, flash.mem
      ensures Valid() && OutsideUnchanged()
      ensures Contents() == Apply(old(Contents()), op)
      ensures answer == Answer(old(Contents()), op)
    {
      ghost var c := Contents();
      answer := [];
      match op
      case Flush =>
        FlushRow();
      case Write(address, bytes) =>
        var data := new byte[|bytes|](i requires 0 <= i < |bytes| => bytes[i]);
        assert data[..|bytes|] == bytes && Contents() == c;
        var status := Write(data, |bytes|, address);
      case Read(address, length) =>
        var data := new byte[length](_ => 0);
        assert Contents() == c;
        var status := Read(data, length, address);
        answer := if status == Ok then [data[..]] else [[]];
        assert status == Ok ==> data[..] == c[address..address + length];
    }

    /** Whatever is done through the driver, in any order, is done to a flat array of bytes. */
    method PerformAll(ops: seq<Op>) returns (answers: seq<seq<byte>>)
      requires Valid() && SingleRowOps(regionSize, ops)
      requires forall op :: op in ops ==> InWidth(op)
      modifies this`rowBufferAddress, this`rowNeedsFlush, this`rowDataValid, rowBuffer, pageBuffer, flash, flash.mem
      ensures Valid() && OutsideUnchanged()
      ensures Contents() == ApplyAll(old(Contents()), ops)
      ensures answers == Answers(old(Contents()), ops)
    {
      ghost var c := Contents();
      answers := [];
      assert ops[0..] == ops;
      for i := 0 to |ops|
        invariant Valid() && OutsideUnchanged()
        invariant Performed(c, ops, i, Contents(), answers)
      {
        OneMorePerformed(c, ops, i, i + 1, Contents(), answers);
        assert ops[i] in ops;
        var answer := Perform(ops[i]);
        answers := answers + answer;
      }
      assert ops[|ops|..] == [];
    }
  }
}
