/** The rule list on the row-cached driver: which added rules survive. */
module StoreOnDriver {
  import opened Bytes
  import opened Flash
  import opened EepromSpec
  import opened RuleLayout

  /** The contents after a write through the driver; beyond the region nothing is stored. */
  function Written(c: seq<byte>, address: nat, data: seq<byte>): (r: seq<byte>)
    requires |c| % ROW_SIZE == 0
    ensures |r| == |c|
  {
    if address < |c| then AfterWrite(c, address, data) else c
  }

  /** A rule added behind the list: its length, and then its bytes. */
  function Added(c: seq<byte>, a: nat, r: Rule): (d: seq<byte>)
    requires |c| % ROW_SIZE == 0 && |r| < EMPTY_BYTE
    ensures |d| == |c|
  {
    Written(Written(c, a, [|r|]), a + 1, r)
  }

  /** The bytes of the rule stay in the row they begin in. */
  predicate InOneRow(a: nat, r: Rule) {
    (a + 1) % ROW_SIZE + |r| <= ROW_SIZE
  }

  lemma LengthWritten(c: seq<byte>, a: nat, length: byte)
    requires |c| % ROW_SIZE == 0 && a < |c|
    ensures Written(c, a, [length]) == c[a := length]
  {
    SingleRowWrite(c, a, [length]);
  }

  lemma AddedInOneRow(c: seq<byte>, a: nat, r: Rule)
    requires |c| % ROW_SIZE == 0 && |r| < EMPTY_BYTE && a + 1 + |r| <= |c| && InOneRow(a, r)
    ensures Added(c, a, r) == WithRule(c, a, r)
  {
    var d := c[a := |r|];
    LengthWritten(c, a, |r|);
    if a + 1 < |c| {
      SingleRowWrite(d, a + 1, r);
    }
    assert d[..a + 1] == c[..a] + [|r|];
  }

  /** Otherwise the first byte that belongs into the next row keeps what was there. */
  lemma AddedAcrossRows(c: seq<byte>, a: nat, r: Rule, k: nat)
    requires |c| % ROW_SIZE == 0 && |r| < EMPTY_BYTE && a + 1 + |r| <= |c| && !InOneRow(a, r)
    requires k == ROW_SIZE - (a + 1) % ROW_SIZE
    ensures k < |r| && Added(c, a, r)[a + 1 + k] == c[a + 1 + k]
  {
    LengthWritten(c, a, |r|);
    CrossingByteIsLost(c[a := |r|], a + 1, r);
  }

  /** Nothing behind the list matters to it. */
  lemma HoldsWithout(c: seq<byte>, d: seq<byte>, first: nat, rules: seq<Rule>)
    requires Holds(c, first, rules) && AddressOf(first, rules) <= |c| == |d|
    requires d[..AddressOf(first, rules)] == c[..AddressOf(first, rules)]
    ensures Holds(d, first, rules)
  {
    assert rules[..|rules|] == rules;
    forall k | 0 <= k < |rules|
      ensures HoldsRule(d, AddressOf(first, rules[..k]), rules[k])
    {
      AddressAfter(first, rules, k);
      AddressesGrow(first, rules, k + 1, |rules|);
      HoldsRuleKept(c, d, AddressOf(first, rules), AddressOf(first, rules[..k]), rules[k]);
    }
  }

  /** A list of which the byte at the k-th place of the new rule is not the rule's byte. */
  lemma NotHeld(d: seq<byte>, first: nat, rules: seq<Rule>, r: Rule, k: nat)
    requires k < |r| && AddressOf(first, rules) + 1 + |r| <= |d| && d[AddressOf(first, rules) + 1 + k] != r[k]
    ensures !Holds(d, first, rules + [r])
  {
    var all, a := rules + [r], AddressOf(first, rules);
    assert all[..|rules|] == rules && all[|rules|] == r;
    assert d[a + 1..a + 1 + |r|][k] == d[a + 1 + k];
  }

  lemma LostSomewhere(c: seq<byte>, first: nat, rules: seq<Rule>, r: Rule) returns (d: seq<byte>)
    requires |c| % ROW_SIZE == 0 && |r| < EMPTY_BYTE && Holds(c, first, rules)
    requires AddressOf(first, rules) + 1 + |r| <= |c| && !InOneRow(AddressOf(first, rules), r)
    ensures |d| == |c| && Holds(d, first, rules) && !Holds(Added(d, AddressOf(first, rules), r), first, rules + [r])
  {
    var a := AddressOf(first, rules);
    var k := ROW_SIZE - (a + 1) % ROW_SIZE;
    AddedAcrossRows(c, a, r, k);
    d := c[a + 1 + k := if r[k] == 0 then 1 else 0];
    HoldsWithout(c, d, first, rules);
    AddedAcrossRows(d, a, r, k);
    NotHeld(Added(d, a, r), first, rules, r, k);
  }

  predicate Kept(c: seq<byte>, first: nat, rules: seq<Rule>, r: Rule)
    requires |c| % ROW_SIZE == 0 && |r| < EMPTY_BYTE
  {
    Holds(c, first, rules) ==> Holds(Added(c, AddressOf(first, rules), r), first, rules + [r])
  }

  /** Adding a rule of less than 255 bytes behind a list extends the list, whatever the memory
      behind it holds, if and only if the bytes of the rule stay in one row. */
  lemma AddedRuleSurvivesIff(c: seq<byte>, first: nat, rules: seq<Rule>, r: Rule)
    requires |c| % ROW_SIZE == 0 && |r| < EMPTY_BYTE && Holds(c, first, rules)
    requires AddressOf(first, rules) + 1 + |r| <= |c|
    ensures (forall d: seq<byte> :: |d| == |c| ==> Kept(d, first, rules, r)) <==> InOneRow(AddressOf(first, rules), r)
  {
    var a := AddressOf(first, rules);
    if InOneRow(a, r) {
      forall d: seq<byte> | |d| == |c|
        ensures Kept(d, first, rules, r)
      {
        if Holds(d, first, rules) {
          AddedInOneRow(d, a, r);
          WithRuleHolds(d, first, rules, r);
        }
      }
    } else {
      var d := LostSomewhere(c, first, rules, r);
      assert !Kept(d, first, rules, r);
    }
  }
}
