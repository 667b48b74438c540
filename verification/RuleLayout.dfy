/** How rules lie in non-volatile memory: a count byte, then length-prefixed rules one after
    the other; and how a loader walks along them. */
module RuleLayout {
  import opened Bytes

  type Rule = seq<byte>

  /** A stored count of 0xFF is fresh memory and counts as none. */
  function RestoredCount(stored: byte): nat {
    if stored == EMPTY_BYTE then 0 else stored
  }

  function AddressOf(first: nat, rules: seq<Rule>): nat
    decreases rules
  {
    if rules == [] then first
    else AddressOf(first, rules[..|rules| - 1]) + |rules[|rules| - 1]| + 1
  }

  /** Rule `r` lies at `a`. */
  predicate HoldsRule(mem: seq<byte>, a: nat, r: Rule) {
    && |r| < EMPTY_BYTE
    && a + 1 + |r| <= |mem|
    && mem[a] == |r|
    && mem[a + 1..a + 1 + |r|] == r
  }

  /** The rules lie one after the other from `first` on. */
  predicate Holds(mem: seq<byte>, first: nat, rules: seq<Rule>) {
    forall k :: 0 <= k < |rules| ==> HoldsRule(mem, AddressOf(first, rules[..k]), rules[k])
  }

  lemma RuleBytes(mem: seq<byte>, first: nat, rules: seq<Rule>, k: nat)
    requires Holds(mem, first, rules) && k < |rules|
    ensures var a := AddressOf(first, rules[..k]) + 1;
            |rules[k]| < EMPTY_BYTE && a + |rules[k]| <= |mem| && mem[a..a + |rules[k]|] == rules[k]
  {
    assert HoldsRule(mem, AddressOf(first, rules[..k]), rules[k]);
  }

  lemma AddressAfter(first: nat, rules: seq<Rule>, k: nat)
    requires k < |rules|
    ensures AddressOf(first, rules[..k + 1]) == AddressOf(first, rules[..k]) + |rules[k]| + 1
  {
    assert rules[..k + 1][..k] == rules[..k];
  }

  lemma {:induction false} AddressesGrow(first: nat, rules: seq<Rule>, j: nat, k: nat)
    requires j <= k <= |rules|
    ensures AddressOf(first, rules[..j]) + (k - j) <= AddressOf(first, rules[..k])
    decreases k
  {
    if j < k {
      AddressAfter(first, rules, k - 1);
      AddressesGrow(first, rules, j, k - 1);
    }
  }

  lemma HoldsRuleKept(mem: seq<byte>, mem': seq<byte>, n: nat, a: nat, r: Rule)
    requires n <= |mem| == |mem'| && mem'[..n] == mem[..n]
    requires HoldsRule(mem, a, r) && a + 1 + |r| <= n
    ensures HoldsRule(mem', a, r)
  {
    assert mem'[..n][a] == mem[..n][a];
    SliceOfPrefix(mem, n, a + 1, a + 1 + |r|);
    SliceOfPrefix(mem', n, a + 1, a + 1 + |r|);
  }

  lemma SliceOfPrefix(s: seq<byte>, n: nat, i: nat, j: nat)
    requires i <= j <= n <= |s|
    ensures s[i..j] == s[..n][i..j]
  {
  }

  /** Rules lie one behind the other, so writing at the end leaves them alone. */
  lemma HoldsAfterAppend(mem: seq<byte>, mem': seq<byte>, first: nat, rules: seq<Rule>, r: Rule)
    requires Holds(mem, first, rules) && AddressOf(first, rules) <= |mem| == |mem'|
    requires mem'[..AddressOf(first, rules)] == mem[..AddressOf(first, rules)]
    requires HoldsRule(mem', AddressOf(first, rules), r)
    ensures Holds(mem', first, rules + [r])
  {
    var all, n := rules + [r], AddressOf(first, rules);
    assert rules[..|rules|] == rules;
    forall k | 0 <= k < |all|
      ensures HoldsRule(mem', AddressOf(first, all[..k]), all[k])
    {
      assert all[..k] == rules[..k];
      if k < |rules| {
        AddressAfter(first, rules, k);
        AddressesGrow(first, rules, k + 1, |rules|);
        HoldsRuleKept(mem, mem', n, AddressOf(first, rules[..k]), rules[k]);
      }
    }
  }

  /** Memory after a rule has been written at `a`: its length and then its bytes. */
  function WithRule(mem: seq<byte>, a: nat, r: Rule): (r': seq<byte>)
    requires |r| <= EMPTY_BYTE && a + 1 + |r| <= |mem|
    ensures |r'| == |mem|
  {
    mem[..a] + [|r|] + r + mem[a + 1 + |r|..]
  }

  lemma WithRuleHolds(mem: seq<byte>, first: nat, rules: seq<Rule>, r: Rule)
    requires Holds(mem, first, rules) && |r| <= EMPTY_BYTE && AddressOf(first, rules) + 1 + |r| <= |mem|
    ensures Holds(WithRule(mem, AddressOf(first, rules), r), first, rules + [r]) <==> |r| < EMPTY_BYTE
  {
    var mem', a := WithRule(mem, AddressOf(first, rules), r), AddressOf(first, rules);
    if |r| < EMPTY_BYTE {
      WithRuleHoldsIt(mem, a, r);
      HoldsAfterAppend(mem, mem', first, rules, r);
    } else {
      var all := rules + [r];
      assert !HoldsRule(mem', AddressOf(first, all[..|rules|]), all[|rules|]);
    }
  }

  lemma WithRuleHoldsIt(mem: seq<byte>, a: nat, r: Rule)
    requires |r| < EMPTY_BYTE && a + 1 + |r| <= |mem|
    ensures HoldsRule(WithRule(mem, a, r), a, r) && WithRule(mem, a, r)[..a] == mem[..a]
  {
  }

  lemma AppendedAddress(first: nat, rules: seq<Rule>, r: Rule)
    ensures AddressOf(first, rules + [r]) == AddressOf(first, rules) + |r| + 1
  {
    assert (rules + [r])[..|rules|] == rules;
  }

  /** The first n rules fit wherever all of them do. */
  lemma PrefixFits(mem: seq<byte>, first: nat, end: nat, rules: seq<Rule>, n: nat)
    requires Holds(mem, first, rules) && n <= |rules| && AddressOf(first, rules) <= end
    ensures Holds(mem, first, rules[..n]) && AddressOf(first, rules[..n]) <= end
    ensures rules[..n][..n] == rules[..n]
  {
    HoldsPrefix(mem, first, rules, n);
    AddressesGrow(first, rules, n, |rules|);
    assert rules[..|rules|] == rules;
  }

  /** The address after the last rule, from the one it lies at. */
  lemma AddressAfterLast(first: nat, rules: seq<Rule>)
    requires rules != []
    ensures AddressOf(first, rules) == AddressOf(first, rules[..|rules| - 1]) + |rules[|rules| - 1]| + 1
  {
  }

  /** What a rule written after the last one means for the list, its saved prefix and the bytes
      before it. */
  lemma RuleAppended(before: seq<byte>, after: seq<byte>, first: nat, rules: seq<Rule>, r: Rule, n: nat, start: nat)
    requires Holds(before, first, rules) && n <= |rules| && start < first && |r| <= EMPTY_BYTE
    requires AddressOf(first, rules) + 1 + |r| <= |before| && after == WithRule(before, AddressOf(first, rules), r)
    ensures Holds(after, first, rules + [r]) <==> |r| < EMPTY_BYTE
    ensures AddressOf(first, rules + [r]) == AddressOf(first, rules) + |r| + 1
    ensures start < |before| == |after| && after[start] == before[start]
    ensures (rules + [r])[..n] == rules[..n]
  {
    WithRuleHolds(before, first, rules, r);
    AppendedAddress(first, rules, r);
    AddressAtLeast(first, rules);
    WithRuleKeepsBefore(before, AddressOf(first, rules), r, start);
    AppendKeepsPrefix(rules, r, n);
  }

  lemma {:induction false} AddressAtLeast(first: nat, rules: seq<Rule>)
    ensures first <= AddressOf(first, rules)
    decreases rules
  {
    if rules != [] {
      AddressAtLeast(first, rules[..|rules| - 1]);
    }
  }

  lemma WithRuleKeepsBefore(mem: seq<byte>, a: nat, r: Rule, i: nat)
    requires |r| <= EMPTY_BYTE && a + 1 + |r| <= |mem| && i < a
    ensures WithRule(mem, a, r)[i] == mem[i]
  {
  }

  lemma AppendKeepsPrefix(rules: seq<Rule>, r: Rule, n: nat)
    requires n <= |rules|
    ensures (rules + [r])[..n] == rules[..n]
  {
  }

  lemma HoldsPrefix(mem: seq<byte>, first: nat, rules: seq<Rule>, n: nat)
    requires Holds(mem, first, rules) && n <= |rules|
    ensures Holds(mem, first, rules[..n])
  {
    forall k | 0 <= k < n
      ensures HoldsRule(mem, AddressOf(first, rules[..n][..k]), rules[..n][k])
    {
      assert rules[..n][..k] == rules[..k];
    }
  }

  lemma HoldsRuleElsewhere(mem: seq<byte>, mem': seq<byte>, first: nat, a: nat, r: Rule)
    requires first <= a && |mem'| == |mem| && first <= |mem| && mem'[first..] == mem[first..]
    requires HoldsRule(mem, a, r)
    ensures HoldsRule(mem', a, r)
  {
    assert mem'[first..][a - first] == mem[first..][a - first];
    SliceOfSuffix(mem, first, a + 1, a + 1 + |r|);
    SliceOfSuffix(mem', first, a + 1, a + 1 + |r|);
  }

  lemma SliceOfSuffix(s: seq<byte>, n: nat, i: nat, j: nat)
    requires n <= i <= j <= |s|
    ensures s[i..j] == s[n..][i - n..j - n]
  {
  }

  /** Memory below `first` does not matter. */
  lemma HoldsElsewhere(mem: seq<byte>, mem': seq<byte>, first: nat, rules: seq<Rule>)
    requires Holds(mem, first, rules) && |mem'| == |mem| && first <= |mem| && mem'[first..] == mem[first..]
    ensures Holds(mem', first, rules)
  {
    forall k | 0 <= k < |rules|
      ensures HoldsRule(mem', AddressOf(first, rules[..k]), rules[k])
    {
      AddressAtLeast(first, rules[..k]);
      HoldsRuleElsewhere(mem, mem', first, AddressOf(first, rules[..k]), rules[k]);
    }
  }

  // ----- The loader's cursor

  datatype Cursor = Cursor(initialised: bool, ruleId: nat, length: byte, address: nat)

  /** Reading a header past the end of the memory fails. */
  datatype Lookup = Found(cursor: Cursor, headerReads: nat) | ReadError

  /** A header of 0xFF makes the loader uninitialised. */
  function ReadHeader(mem: seq<byte>, c: Cursor): Lookup {
    if c.address < |mem| then
      Found(c.(length := mem[c.address], initialised := c.initialised && mem[c.address] != EMPTY_BYTE), 1)
    else ReadError
  }

  function NextRule(mem: seq<byte>, c: Cursor): Lookup {
    ReadHeader(mem, c.(address := c.address + c.length + 1, ruleId := c.ruleId + 1))
  }

  function Walk(mem: seq<byte>, at: Lookup, id: nat): Lookup
    decreases if at.Found? && at.cursor.ruleId < id then id - at.cursor.ruleId else 0
  {
    if at.Found? && at.cursor.ruleId < id && at.cursor.initialised then
      var next := NextRule(mem, at.cursor);
      Walk(mem, if next.Found? then Found(next.cursor, at.headerReads + 1) else next, id)
    else at
  }

  function FindRule(mem: seq<byte>, first: nat, id: nat): Lookup {
    Walk(mem, ReadHeader(mem, Cursor(true, 0, 0, first)), id)
  }

  /** The manager's shortcut: stay, go one further, or walk from the start. */
  function FindFromCursor(mem: seq<byte>, first: nat, c: Cursor, id: nat): Lookup {
    if !c.initialised then FindRule(mem, first, id)
    else if id == c.ruleId then Found(c, 0)
    else if id == c.ruleId + 1 then NextRule(mem, c)
    else FindRule(mem, first, id)
  }

  /** The cursor that stands on rule `id`. */
  function CursorAt(first: nat, rules: seq<Rule>, id: nat): Cursor
    requires id < |rules| && |rules[id]| < EMPTY_BYTE
  {
    Cursor(true, id, |rules[id]|, AddressOf(first, rules[..id]))
  }

  lemma NextHeader(mem: seq<byte>, id: nat, a: nat, r: Rule, b: nat, s: Rule)
    requires HoldsRule(mem, a, r) && b == a + |r| + 1 && HoldsRule(mem, b, s)
    ensures NextRule(mem, Cursor(true, id, |r|, a)) == Found(Cursor(true, id + 1, |s|, b), 1)
  {
  }

  lemma NextIsNext(mem: seq<byte>, first: nat, rules: seq<Rule>, id: nat)
    requires Holds(mem, first, rules) && id + 1 < |rules|
    ensures |rules[id]| < EMPTY_BYTE && |rules[id + 1]| < EMPTY_BYTE
    ensures NextRule(mem, CursorAt(first, rules, id)) == Found(CursorAt(first, rules, id + 1), 1)
  {
    var next := id + 1;
    assert HoldsRule(mem, AddressOf(first, rules[..id]), rules[id]);
    assert HoldsRule(mem, AddressOf(first, rules[..next]), rules[next]);
    AddressAfter(first, rules, id);
    NextHeader(mem, id, AddressOf(first, rules[..id]), rules[id], AddressOf(first, rules[..next]), rules[next]);
  }

  lemma {:induction false} WalkArrives(mem: seq<byte>, first: nat, rules: seq<Rule>, from: nat, cost: nat, id: nat)
    requires Holds(mem, first, rules) && from <= id < |rules|
    requires |rules[from]| < EMPTY_BYTE
    ensures |rules[id]| < EMPTY_BYTE
    ensures Walk(mem, Found(CursorAt(first, rules, from), cost), id)
         == Found(CursorAt(first, rules, id), cost + id - from)
    decreases id - from
  {
    if from < id {
      NextIsNext(mem, first, rules, from);
      WalkArrives(mem, first, rules, from + 1, cost + 1, id);
    }
  }

  /** Walking from the start finds every rule, with one header read for each rule passed. */
  lemma FindRuleArrives(mem: seq<byte>, first: nat, rules: seq<Rule>, id: nat)
    requires Holds(mem, first, rules) && id < |rules|
    ensures |rules[id]| < EMPTY_BYTE
    ensures FindRule(mem, first, id) == Found(CursorAt(first, rules, id), id + 1)
  {
    assert HoldsRule(mem, AddressOf(first, rules[..0]), rules[0]);
    assert rules[..0] == [];
    WalkArrives(mem, first, rules, 0, 1, id);
  }

  /** A cursor that either is unused or stands on one of the rules. */
  predicate CursorGood(first: nat, rules: seq<Rule>, c: Cursor) {
    !c.initialised
    || (c.ruleId < |rules| && |rules[c.ruleId]| < EMPTY_BYTE && c == CursorAt(first, rules, c.ruleId))
  }

  /** With a good cursor every lookup arrives; staying is free, the next rule costs one header. */
  lemma LookupArrives(mem: seq<byte>, first: nat, rules: seq<Rule>, c: Cursor, id: nat)
    requires Holds(mem, first, rules) && id < |rules| && CursorGood(first, rules, c)
    ensures |rules[id]| < EMPTY_BYTE
    ensures var r := FindFromCursor(mem, first, c, id);
            && r.Found? && r.cursor == CursorAt(first, rules, id)
            && r.headerReads == if !c.initialised then id + 1
                                else if id == c.ruleId then 0
                                else if id == c.ruleId + 1 then 1
                                else id + 1
  {
    FindRuleArrives(mem, first, rules, id);
    if c.initialised && id == c.ruleId + 1 {
      NextIsNext(mem, first, rules, c.ruleId);
    }
  }

  /** With any cursor at all, good or left over from before the rules were cleared, a lookup
      arrives exactly when it does not lean on a wrong cursor. */
  lemma LookupArrivesIff(mem: seq<byte>, first: nat, rules: seq<Rule>, c: Cursor, id: nat)
    requires Holds(mem, first, rules) && id < |rules|
    ensures |rules[id]| < EMPTY_BYTE
    ensures var r := FindFromCursor(mem, first, c, id);
            (r.Found? && r.cursor == CursorAt(first, rules, id)) <==>
            && (c.initialised && id == c.ruleId ==>
                  c.address == AddressOf(first, rules[..id]) && c.length == |rules[id]|)
            && (c.initialised && id == c.ruleId + 1 ==>
                  c.address + c.length + 1 == AddressOf(first, rules[..id]))
  {
    FindRuleArrives(mem, first, rules, id);
    assert HoldsRule(mem, AddressOf(first, rules[..id]), rules[id]);
  }

  /** A cursor kept across a clear: rule 0 had three bytes, the new rule 0 has one, and the
      lookup still answers three. */
  lemma StaleCursorMisleads()
    ensures var mem, rules := [0, 1, 7, 0, 0, 0], [[7]];
            var stale := Cursor(true, 0, 3, 1);
            Holds(mem, 1, rules) && FindFromCursor(mem, 1, stale, 0) == Found(stale, 0)
  {
    var mem: seq<byte>, rules: seq<Rule> := [0, 1, 7, 0, 0, 0], [[7]];
    assert rules[..0] == [];
    assert mem[2..3] == [7];
  }
}
