/** The rule manager and its loader over a flat non-volatile memory. */
module RuleStore {
  import opened Bytes
  import opened RuleLayout

  datatype Status = Ok | OutOfRange | NvmReadError

  /** The contract of a memory driver: a flat array of bytes. */
  class Nvm {
    const mem: array<byte>

    constructor (size: nat)
      ensures mem.Length == size && fresh(mem)
      ensures forall i :: 0 <= i < size ==> mem[i] == EMPTY_BYTE
    {
      mem := new byte[size](_ => EMPTY_BYTE);
    }

    method ReadByte(address: nat) returns (status: Status, b: byte)
      ensures status == if address < mem.Length then Ok else NvmReadError
      ensures status == Ok ==> b == mem[address]
    {
      if address >= mem.Length {
        return NvmReadError, 0;
      }
      return Ok, mem[address];
    }

    method Read(data: array<byte>, length: nat, address: nat) returns (status: Status)
      requires length <= data.Length && data != mem
      modifies data
      ensures status == if address + length <= mem.Length then Ok else NvmReadError
      ensures status == Ok ==> data[..length] == mem[address..address + length]
    {
      if address + length > mem.Length {
        return NvmReadError;
      }
      forall k | 0 <= k < length {
        data[k] := mem[address + k];
      }
      status := Ok;
    }

    method WriteByte(b: byte, address: nat)
      requires address < mem.Length
      modifies mem
      ensures mem[..] == old(mem[..])[address := b]
    {
      mem[address] := b;
    }

    method Write(data: array<byte>, length: nat, address: nat)
      requires length <= data.Length && data != mem && address + length <= mem.Length
      modifies mem
      ensures mem[..] == old(mem[..address]) + data[..length] + old(mem[address + length..])
    {
      forall k | 0 <= k < length {
        mem[address + k] := data[k];
      }
    }
  }

  class NvmRuleLoader {
    const nvm: Nvm
    const first: nat
    var initialised: bool
    var ruleId: nat
    var length: byte
    var address: nat
    /** How many rule headers have been read. */
    ghost var headerReads: nat

    constructor (nvm: Nvm, first: nat)
      ensures this.nvm == nvm && this.first == first && !initialised && headerReads == 0
    {
      this.nvm, this.first := nvm, first;
      initialised, ruleId, length, address, headerReads := false, 0, 0, 0, 0;
    }

    ghost function State(): Cursor
      reads this
    {
      Cursor(initialised, ruleId, length, address)
    }

    /** The cursor and the header reads are those of `r`, or the read failed as `r` says. */
    twostate predicate Reached(status: Status, r: Lookup)
      reads this
    {
      if r.Found? then status == Ok && State() == r.cursor && headerReads == old(headerReads) + r.headerReads
      else status == NvmReadError
    }

    method ReadHeaderFromNvm() returns (status: Status)
      modifies this
      ensures Reached(status, ReadHeader(nvm.mem[..], old(State())))
    {
      var b;
      status, b := nvm.ReadByte(address);
      if status != Ok {
        return;
      }
      length := b;
      headerReads := headerReads + 1;
      if length == EMPTY_BYTE {
        initialised := false;
      }
    }

    function GetNextRuleNvmAddress(): nat
      reads this
    {
      address + length + 1
    }

    method GetNextRule() returns (status: Status)
      modifies this
      ensures Reached(status, NextRule(nvm.mem[..], old(State())))
    {
      address := GetNextRuleNvmAddress();
      ruleId := ruleId + 1;
      status := ReadHeaderFromNvm();
    }

    method GetRule(id: nat) returns (status: Status)
      modifies this
      ensures Reached(status, FindRule(nvm.mem[..], first, id))
    {
      ghost var reads0 := headerReads;
      ruleId := 0;
      address := first;
      initialised := true;
      ghost var begin := Cursor(true, 0, length, first);
      status := ReadHeaderFromNvm();
      assert ReadHeader(nvm.mem[..], begin) == ReadHeader(nvm.mem[..], Cursor(true, 0, 0, first));
      if status != Ok {
        return;
      }
      while ruleId < id && initialised
        invariant status == Ok && headerReads >= reads0
        invariant Walk(nvm.mem[..], Found(State(), headerReads - reads0), id) == FindRule(nvm.mem[..], first, id)
        decreases if ruleId < id then id - ruleId else 0
      {
        status := GetNextRule();
        if status != Ok {
          return;
        }
      }
    }

    method GetData(data: array<byte>) returns (status: Status)
      requires length as int <= data.Length && data != nvm.mem && address + 1 < 0x10000
      modifies data
      ensures status == if address + 1 + length <= nvm.mem.Length then Ok else NvmReadError
      ensures status == Ok ==> data[..length] == nvm.mem[..][address + 1..address + 1 + length]
    {
      status := nvm.Read(data, length, address + 1);
    }
  }

  /** The rules follow the byte that holds their count. */
  function FirstRuleAddress(start: nat): nat {
    start + 1
  }

  class NvmRuleManager {
    const nvm: Nvm
    const start: nat
    const end: nat
    const loader: NvmRuleLoader
    var ruleCount: byte
    var newRuleAddress: nat
    /** The rules added since the last clear, saved or not. */
    ghost var rules: seq<Rule>

    const first: nat := FirstRuleAddress(start)

    /** The rules that a manager rebuilt from memory would hold. */
    ghost function Saved(): seq<Rule>
      requires Valid()
      reads this, nvm.mem
    {
      rules[..RestoredCount(nvm.mem[start])]
    }

    ghost predicate Valid()
      reads this, nvm.mem
    {
      && start < end <= nvm.mem.Length < 0x10000
      && loader.nvm == nvm && loader.first == first
      && ruleCount as int == |rules|
      && newRuleAddress == AddressOf(first, rules) && newRuleAddress <= end
      && Holds(nvm.mem[..], first, rules)
      && RestoredCount(nvm.mem[start]) <= |rules|
    }

    /** The loader's cursor is unused or stands on one of the rules. */
    ghost predicate CursorValid()
      reads this, loader
    {
      CursorGood(first, rules, loader.State())
    }

    /** A manager over existing memory picks up exactly the rules that the stored count covers,
        and will add after the last of them. */
    constructor (start: nat, end: nat, nvm: Nvm, ghost image: seq<Rule>)
      requires start < end <= nvm.mem.Length < 0x10000
      requires Holds(nvm.mem[..], FirstRuleAddress(start), image) && RestoredCount(nvm.mem[start]) <= |image|
      requires AddressOf(FirstRuleAddress(start), image) <= end
      ensures this.nvm == nvm && this.start == start && this.end == end
      ensures Valid() && CursorValid() && !loader.initialised && loader.headerReads == 0 && fresh(loader)
      ensures rules == image[..RestoredCount(nvm.mem[start])] && Saved() == rules
    {
      this.start, this.end, this.nvm := start, end, nvm;
      loader := new NvmRuleLoader(nvm, FirstRuleAddress(start));
      ruleCount := 0;
      newRuleAddress := FirstRuleAddress(start);
      rules := [];
      new;
      ghost var mem := nvm.mem[..];
      Recover(image, mem);
    }

    /** What a power-up makes of the memory that this manager leaves: a manager of the saved rules. */
    method PowerUp() returns (again: NvmRuleManager)
      requires Valid()
      ensures fresh(again) && again.Valid() && again.nvm == nvm && again.rules == Saved()
    {
      again := new NvmRuleManager(start, end, nvm, rules);
    }

    /** The work of the constructor: the count from memory, and the address after the last rule. */
    method Recover(ghost image: seq<Rule>, ghost mem: seq<byte>)
      requires start < end <= nvm.mem.Length < 0x10000 && loader.nvm == nvm && loader.first == first
      requires mem == nvm.mem[..] && Holds(mem, first, image) && RestoredCount(mem[start]) <= |image|
      requires AddressOf(first, image) <= end
      modifies this
      ensures Valid() && rules == image[..RestoredCount(mem[start])] && Saved() == rules
    {
      rules := image[..RestoredCount(mem[start])];
      PrefixFits(mem, first, end, image, |rules|);
      ruleCount := GetRuleCountFromNvm();
      if ruleCount == 0 {
        newRuleAddress := first;
      } else {
        newRuleAddress := GetNewRuleNvmAddress();
      }
      assert rules[..|rules|] == rules;
    }

    method GetRuleCountFromNvm() returns (count: byte)
      requires start < nvm.mem.Length
      ensures count as int == RestoredCount(nvm.mem[start])
    {
      var status;
      status, count := nvm.ReadByte(start);
      if count == EMPTY_BYTE {
        count := 0;
      }
    }

    method GetNewRuleNvmAddress() returns (address: nat)
      requires loader.nvm == nvm && first <= nvm.mem.Length
      requires 0 < ruleCount as int == |rules| && Holds(nvm.mem[..], first, rules)
      ensures address == AddressOf(first, rules)
    {
      var rule := new NvmRuleLoader(nvm, first);
      FindRuleArrives(nvm.mem[..], first, rules, |rules| - 1);
      AddressAfterLast(first, rules);
      var status := rule.GetRule(ruleCount - 1);
      assert rule.State() == CursorAt(first, rules, |rules| - 1);
      address := rule.GetNextRuleNvmAddress();
    }

    /** Appends a rule when there is room, and otherwise changes nothing. The list stays well
        formed exactly when the rule is shorter than 255 bytes, because a header of 0xFF means
        none, and there are fewer than 255 rules, because the count is one byte. */
    method AddNewRule(buf: array<byte>, length: byte) returns (status: Status, id: byte)
      requires Valid() && length as int <= buf.Length && buf != nvm.mem
      modifies this, nvm.mem
      ensures status == if old(newRuleAddress) + 1 + length > end then OutOfRange else Ok
      ensures status != Ok ==> unchanged(this) && unchanged(nvm.mem)
      ensures status == Ok ==> rules == old(rules) + [old(buf[..length])] && id as int == |old(rules)|
      ensures status == Ok ==> (Valid() <==> length < EMPTY_BYTE && |old(rules)| < 0xFF)
      ensures Valid() ==> Saved() == old(Saved()) && (old(CursorValid()) ==> CursorValid())
    {
      if newRuleAddress + 1 + length > end {
        return OutOfRange, 0;
      }
      CursorKept(buf[..length]);
      id := AppendRule(buf, length);
      status := Ok;
    }

    /** A rule written and noted, and what that makes of the list. */
    method AppendRule(buf: array<byte>, length: byte) returns (id: byte)
      requires Valid() && length as int <= buf.Length && buf != nvm.mem && newRuleAddress + 1 + length <= end
      modifies this`rules, this`ruleCount, this`newRuleAddress, nvm.mem
      ensures rules == old(rules) + [old(buf[..length])] && id as int == |old(rules)|
      ensures ruleCount as int == |rules| <==> |rules| <= 0xFF
      ensures newRuleAddress == AddressOf(first, rules) == old(newRuleAddress) + length + 1
      ensures Holds(nvm.mem[..], first, rules) <==> length < EMPTY_BYTE
      ensures nvm.mem[start] == old(nvm.mem[start])
      ensures rules[..RestoredCount(nvm.mem[start])] == old(rules[..RestoredCount(nvm.mem[start])])
    {
      ghost var before, data := nvm.mem[..], buf[..length];
      WriteRule(buf, length);
      RuleAppended(before, nvm.mem[..], first, rules, data, RestoredCount(before[start]), start);
      assert nvm.mem[..][start] == nvm.mem[start];
      id := NoteRule(length, data);
    }

    /** What is kept in memory about a rule that has been written. */
    method NoteRule(length: byte, ghost data: Rule) returns (id: byte)
      requires |data| == length as int && ruleCount as int == |rules|
      modifies this`rules, this`ruleCount, this`newRuleAddress
      ensures rules == old(rules) + [data] && id as int == |old(rules)|
      ensures newRuleAddress == old(newRuleAddress) + length + 1
      ensures ruleCount as int == |rules| <==> |rules| <= 0xFF
    {
      rules := rules + [data];
      id := ruleCount;
      ruleCount := if ruleCount == 0xFF then 0 else ruleCount + 1;
      newRuleAddress := newRuleAddress + length + 1;
    }

    method WriteRule(buf: array<byte>, length: byte)
      requires length as int <= buf.Length && buf != nvm.mem && newRuleAddress + 1 + length <= nvm.mem.Length
      modifies nvm.mem
      ensures nvm.mem[..] == WithRule(old(nvm.mem[..]), newRuleAddress, buf[..length])
    {
      nvm.WriteByte(length, newRuleAddress);
      nvm.Write(buf, length, newRuleAddress + 1);
    }

    lemma CursorKept(data: Rule)
      ensures CursorValid() ==> CursorGood(first, rules + [data], loader.State())
    {
      var k := loader.ruleId;
      if CursorValid() && loader.initialised {
        assert (rules + [data])[..k] == rules[..k];
      }
    }

    /** Makes all rules so far survive a restart. A count of 255 reads back as none. */
    method SaveRuleCountToNvm()
      requires Valid()
      modifies nvm.mem
      ensures Valid() && (old(CursorValid()) ==> CursorValid())
      ensures rules == old(rules)
      ensures Saved() == if |rules| == 0xFF then [] else rules
    {
      ghost var before := nvm.mem[..];
      nvm.WriteByte(ruleCount, start);
      HoldsElsewhere(before, nvm.mem[..], first, rules);
      assert rules[..|rules|] == rules;
    }

    /** Forgets all rules, also across a restart. The loader's cursor is left as it was. */
    method ClearRules()
      requires Valid()
      modifies this, nvm.mem
      ensures Valid() && rules == [] && Saved() == []
      ensures loader.State() == old(loader.State())
      ensures old(CursorValid()) && (old(rules) == [] || !loader.initialised) ==> CursorValid()
    {
      if ruleCount == 0 {
        return;
      }
      ruleCount := 0;
      rules := [];
      ghost var before := nvm.mem[..];
      nvm.WriteByte(ruleCount, start);
      newRuleAddress := first;
    }

    method GetRuleInfo(id: byte) returns (status: Status)
      requires Valid()
      modifies loader
      ensures id >= ruleCount ==> status == OutOfRange && unchanged(loader)
      ensures id < ruleCount ==>
                loader.Reached(status, FindFromCursor(nvm.mem[..], first, old(loader.State()), id))
    {
      if id >= ruleCount {
        return OutOfRange;
      }
      if !loader.initialised {
        status := loader.GetRule(id);
        return;
      }
      status := Ok;
      if id as int == loader.ruleId {
      } else if id as int == loader.ruleId + 1 {
        status := loader.GetNextRule();
      } else {
        status := loader.GetRule(id);
      }
    }

    /** What finding rule `id` costs: nothing if the cursor is there, one header if it is just
        before, and otherwise a walk from the first rule. */
    ghost function HeaderCost(c: Cursor, id: nat): nat {
      if c.initialised && id == c.ruleId then 0
      else if c.initialised && id == c.ruleId + 1 then 1
      else id + 1
    }

    /** With a valid cursor, finding a rule succeeds and leaves the cursor on it. */
    method FindValid(id: byte) returns (status: Status)
      requires Valid() && CursorValid() && id < ruleCount
      modifies loader
      ensures status == Ok && |rules[id]| < EMPTY_BYTE && loader.State() == CursorAt(first, rules, id)
      ensures loader.headerReads == old(loader.headerReads) + HeaderCost(old(loader.State()), id)
    {
      LookupArrives(nvm.mem[..], first, rules, loader.State(), id);
      status := GetRuleInfo(id);
    }

    /** With a valid cursor, gives exactly the bytes of rule `id`. */
    method GetRuleData(id: byte, data: array<byte>) returns (status: Status, length: byte)
      requires Valid() && CursorValid() && data.Length >= 0xFF && data != nvm.mem
      modifies loader, data
      ensures Valid() && CursorValid()
      ensures status == if id < ruleCount then Ok else OutOfRange
      ensures status == Ok ==> length as int == |rules[id]| && data[..length] == rules[id]
      ensures status == Ok ==> loader.initialised && loader.ruleId == id
      ensures status == Ok ==>
                loader.headerReads == old(loader.headerReads) + HeaderCost(old(loader.State()), id)
    {
      if id >= ruleCount {
        return OutOfRange, 0;
      }
      status := FindValid(id);
      length := loader.length;
      status := FindValid(id);
      RuleBytes(nvm.mem[..], first, rules, id);
      status := CopyFound(data, rules[id], AddressOf(first, rules[..id]) + 1);
    }

    method CopyFound(data: array<byte>, ghost rule: Rule, ghost a: nat) returns (status: Status)
      requires loader.nvm == nvm && nvm.mem.Length < 0x10000 && loader.address + 1 == a && loader.length as int == |rule|
      requires a + |rule| <= nvm.mem.Length && nvm.mem[..][a..a + |rule|] == rule
      requires data.Length >= 0xFF && data != nvm.mem && |rule| < EMPTY_BYTE
      modifies data
      ensures status == Ok && data[..|rule|] == rule
    {
      status := loader.GetData(data);
    }

    /** Reading all rules in order from a fresh manager hands out every rule, and reads each header
        exactly once. */
    method ScanRules(data: array<byte>) returns (status: Status, scanned: seq<seq<byte>>)
      requires Valid() && CursorValid() && !loader.initialised && data.Length >= 0xFF && data != nvm.mem
      modifies loader, data
      ensures status == Ok && scanned == rules
      ensures loader.headerReads == old(loader.headerReads) + |rules|
    {
      status, scanned := Ok, [];
      var i: byte := 0;
      while i < ruleCount
        invariant i <= ruleCount && status == Ok && Valid() && CursorValid()
        invariant if i == 0 then !loader.initialised else loader.initialised && loader.ruleId == i as int - 1
        invariant loader.headerReads == old(loader.headerReads) + i as int
        invariant FirstOf(rules, scanned, i)
        decreases ruleCount - i
      {
        var length;
        status, length := GetRuleData(i, data);
        OneMoreOf(rules, scanned, i, i + 1);
        scanned := scanned + [data[..length]];
        i := i + 1;
      }
    }

    static predicate FirstOf(all: seq<seq<byte>>, some: seq<seq<byte>>, n: nat) {
      n <= |all| && some == all[..n]
    }

    static lemma OneMoreOf(all: seq<seq<byte>>, some: seq<seq<byte>>, n: nat, m: nat)
      requires FirstOf(all, some, n) && n < |all| && m == n + 1
      ensures FirstOf(all, some + [all[n]], m)
    {
    }
  }
}
