/** The flash memory underneath the emulated EEPROM: it erases whole rows to ones, and
    programming a page can only clear bits. */
module Flash {
  import opened Bytes

  const PAGE_SIZE := 64
  const ROW_PAGES := 4
  const ROW_SIZE := 256

  /** Programming clears bits. */
  function And(x: byte, y: byte): byte {
    ((x as bv8) & (y as bv8)) as int
  }

  lemma ErasedTakesAnything(y: byte)
    ensures And(EMPTY_BYTE, y) == y
  {
    assert (0xFF as bv8) & (y as bv8) == y as bv8;
  }

  class FlashMemory {
    const mem: array<byte>
    /** The pages programmed since their row was last erased, by their start address. */
    ghost var programmed: set<int>

    constructor (size: nat)
      requires size % ROW_SIZE == 0
      ensures fresh(mem) && mem.Length == size
    {
      mem := new byte[size](_ => EMPTY_BYTE);
      programmed := {};
    }

    method EraseRow(address: nat)
      requires address % ROW_SIZE == 0 && address + ROW_SIZE <= mem.Length
      modifies this, mem
      ensures forall i :: 0 <= i < mem.Length ==>
                mem[i] == if address <= i < address + ROW_SIZE then EMPTY_BYTE else old(mem[i])
      ensures programmed == old(programmed) - (set p | p in old(programmed) && address <= p < address + ROW_SIZE)
    {
      forall i | address <= i < address + ROW_SIZE {
        mem[i] := EMPTY_BYTE;
      }
      programmed := programmed - (set p | p in programmed && address <= p < address + ROW_SIZE);
    }

    /** Programs one page, which must have been erased since it was last programmed. */
    method ProgramPage(address: nat, data: array<byte>, from: nat)
      requires address % PAGE_SIZE == 0 && address + PAGE_SIZE <= mem.Length
      requires from + PAGE_SIZE <= data.Length && data != mem
      requires address !in programmed
      modifies this, mem
      ensures forall i :: 0 <= i < mem.Length ==>
                mem[i] == if address <= i < address + PAGE_SIZE then And(old(mem[i]), data[from + (i - address)])
                          else old(mem[i])
      ensures programmed == old(programmed) + {address}
    {
      forall i | address <= i < address + PAGE_SIZE {
        mem[i] := And(mem[i], data[from + (i - address)]);
      }
      programmed := programmed + {address};
    }

    /** Reads at most a page, from the start of a page. */
    method ReadBuffer(address: nat, data: array<byte>, at: nat, length: nat)
      requires address % PAGE_SIZE == 0 && length <= PAGE_SIZE && address + length <= mem.Length
      requires at + length <= data.Length && data != mem
      modifies data
      ensures forall k :: 0 <= k < data.Length ==>
                data[k] == if at <= k < at + length then mem[address + (k - at)] else old(data[k])
    {
      forall k | at <= k < at + length {
        data[k] := mem[address + (k - at)];
      }
    }
  }
}
