/** Rules that switch channels and other rules: what one step of the runner does to all of them. */
module Network {
  import opened Calendar
  import opened Periods
  import opened RuleTime

  datatype Target = NoTarget | Channel(channel: nat) | ActivatesRule(rule: nat)

  /** `whenRunning` is the state the target is put into while the action runs. */
  datatype Config = Config(schedule: Schedule, enabledOnStart: bool, whenRunning: bool, target: Target)

  /** The rules as loaded. `order` numbers them so that every rule comes before its target. */
  datatype System = System(configs: seq<Config>, order: seq<nat>, channelCount: nat, win: Window)

  /** What changes about one rule. `start` is the start of its current period, or empty. */
  datatype Dyn = Dyn(enabled: bool, start: Timestamp, lastUpdate: Timestamp, active: bool, hasRun: bool)

  /** A rule being evaluated, and whether all its enabled parents had been by then. */
  datatype Evaluation = Evaluation(rule: nat, parentsDone: bool)

  datatype World = World(rules: seq<Dyn>, channels: seq<bool>, log: seq<Evaluation>)

  // ----- The activation graph

  predicate IsParent(sys: System, p: nat, i: nat) {
    p < |sys.configs| && sys.configs[p].target == ActivatesRule(i)
  }

  /** The parents of rule i among the first n rules, in order. */
  function ParentsBelow(sys: System, i: nat, n: nat): (r: seq<nat>)
    requires n <= |sys.configs|
    ensures forall p: nat :: p in r <==> p < n && IsParent(sys, p, i)
    ensures |r| <= n && forall m :: 0 <= m < |r| ==> r[m] < n
  {
    if n == 0 then []
    else ParentsBelow(sys, i, n - 1) + if IsParent(sys, n - 1, i) then [n - 1] else []
  }

  lemma OneMoreParent(sys: System, i: nat, p: nat, n: nat)
    requires p < |sys.configs| && n == p + 1
    ensures ParentsBelow(sys, i, n) == ParentsBelow(sys, i, p) + if IsParent(sys, p, i) then [p] else []
  {
  }

  function Parents(sys: System, i: nat): (r: seq<nat>)
    ensures forall p: nat :: p in r <==> IsParent(sys, p, i)
    ensures forall m :: 0 <= m < |r| ==> r[m] < |sys.configs|
  {
    ParentsBelow(sys, i, |sys.configs|)
  }

  lemma ParentsBounded(sys: System, i: nat)
    ensures |Parents(sys, i)| <= |sys.configs|
  {
  }

  predicate TargetOk(sys: System, i: nat)
    requires |sys.order| == |sys.configs| && i < |sys.configs|
  {
    match sys.configs[i].target
    case NoTarget => true
    case Channel(c) => c < sys.channelCount
    case ActivatesRule(c) => c < |sys.configs| && sys.order[i] < sys.order[c] && sys.configs[i].whenRunning
  }

  /** The activation graph has no cycles, every rule has at most four parents, and a rule
      switches another rule on, not off, while it runs. */
  predicate WellFormed(sys: System) {
    && |sys.order| == |sys.configs|
    && (forall i :: 0 <= i < |sys.configs| ==>
          && sys.order[i] < |sys.configs|
          && TargetOk(sys, i)
          && Fits(sys.configs[i].schedule, sys.win)
          && |Parents(sys, i)| <= 4)
  }

  // ----- The state of one rule

  predicate DynOk(sys: System, i: nat, d: Dyn)
    requires i < |sys.configs|
  {
    var s := sys.configs[i].schedule;
    && (d.start == EMPTY || In(sys.win, d.start))
    && (s.first != EMPTY ==> s.first <= d.start)
  }

  predicate Fit(sys: System, w: World) {
    && |w.rules| == |sys.configs| && |w.channels| == sys.channelCount
    && forall i :: 0 <= i < |sys.configs| ==> DynOk(sys, i, w.rules[i])
  }

  predicate Good(sys: System, w: World, now: Timestamp) {
    && WellFormed(sys) && Fit(sys, w) && Timely(sys.win, now)
    && forall i :: 0 <= i < |w.rules| && w.rules[i].hasRun ==> w.rules[i].lastUpdate == now
  }

  /** Finding the current period stops the action first when the period is only now set to a
      given first one, or has not reached it yet. */
  predicate StopsFirst(s: Schedule, d: Dyn, now: Timestamp) {
    s.first != EMPTY && (d.start == EMPTY || now < s.first)
  }

  function NewStart(sys: System, i: nat, d: Dyn, now: Timestamp): (r: Timestamp)
    requires WellFormed(sys) && i < |sys.configs| && DynOk(sys, i, d) && Timely(sys.win, now)
    ensures In(sys.win, r) && (sys.configs[i].schedule.first != EMPTY ==> sys.configs[i].schedule.first <= r)
  {
    TickInWindow(sys.configs[i].schedule, sys.win, d.start, now);
    Tick(sys.configs[i].schedule, d.start, now)
  }

  // ----- Stopping actions and disabling rules

  function Height(sys: System, i: nat): nat
    requires WellFormed(sys) && i < |sys.configs|
  {
    |sys.configs| - sys.order[i]
  }

  /** Stops the action of rule i. A rule that it had switched on is disabled, and so stops its
      own action, and so on. */
  function Stop(sys: System, w: World, i: nat): (r: World)
    requires WellFormed(sys) && Fit(sys, w) && i < |sys.configs|
    ensures Fit(sys, r) && r.log == w.log
    ensures r.rules[i] == w.rules[i].(active := false)
    ensures forall j :: 0 <= j < |w.rules| && j != i ==>
              r.rules[j] == w.rules[j] || r.rules[j] == w.rules[j].(enabled := false, active := false)
    ensures forall j :: 0 <= j < |w.rules| && j != i && sys.order[j] <= sys.order[i] ==> r.rules[j] == w.rules[j]
    decreases Height(sys, i)
  {
    if !w.rules[i].active then w
    else
      var v := w.(rules := w.rules[i := w.rules[i].(active := false)]);
      match sys.configs[i].target
      case NoTarget => v
      case Channel(c) => v.(channels := v.channels[c := !sys.configs[i].whenRunning])
      case ActivatesRule(c) =>
        assert TargetOk(sys, i);
        Stop(sys, v.(rules := v.rules[c := v.rules[c].(enabled := false)]), c)
  }

  // ----- Why a step ends

  /** Rule i once its current period has been found. */
  function Prepared(sys: System, i: nat, d: Dyn, now: Timestamp): (r: Dyn)
    requires WellFormed(sys) && i < |sys.configs| && DynOk(sys, i, d) && Timely(sys.win, now)
    ensures DynOk(sys, i, r)
  {
    d.(active := d.active && !StopsFirst(sys.configs[i].schedule, d, now), start := NewStart(sys, i, d, now))
  }

  function Bit(b: bool): nat {
    if b then 1 else 0
  }

  /** How many times evaluating rule i now, and now again, would start or stop its action. The
      first look at a rule can find a period that is already over, and only the second one moves
      on to the period of `now`. */
  function Pending(sys: System, i: nat, d: Dyn, now: Timestamp): (r: nat)
    requires WellFormed(sys) && i < |sys.configs| && DynOk(sys, i, d) && Timely(sys.win, now)
    ensures r <= 3 && (!d.active ==> r <= 2)
  {
    var s, e := sys.configs[i].schedule, Prepared(sys, i, d, now);
    var first, second := ActiveAt(s, e.start, now), ActiveAt(s, NewStart(sys, i, e, now), now);
    Bit(d.active && !e.active) + Bit(e.active != first) + Bit(first != second)
  }

  /** The parts of `Pending`: the stop while finding the period, the change now, and the one that
      remains. */
  lemma PendingParts(sys: System, i: nat, d: Dyn, now: Timestamp)
    requires WellFormed(sys) && i < |sys.configs| && DynOk(sys, i, d) && Timely(sys.win, now)
    ensures var e := Prepared(sys, i, d, now);
            var act := ActiveAt(sys.configs[i].schedule, e.start, now);
            Pending(sys, i, d, now) == Bit(d.active && !e.active) + Bit(e.active != act)
                                       + Pending(sys, i, e.(active := act), now)
  {
    var s, e := sys.configs[i].schedule, Prepared(sys, i, d, now);
    var act := ActiveAt(s, e.start, now);
    TickTwice(s, sys.win, e.start, now, now);
    if act && s.first != EMPTY {
      ActiveNotBefore(s, sys.win, e.start, now);
    }
  }

  /** No interval begins before its period. */
  lemma ActiveNotBefore(s: Schedule, win: Window, start: Timestamp, now: Timestamp)
    requires Fits(s, win) && In(win, start) && ActiveAt(s, start, now)
    ensures start <= now
  {
    ActiveInWindow(s, win, start, now);
  }

  /** Each rule weighs four times as much as its target, so that one change of its own outweighs
      everything it can cause further down. */
  function Weight(height: nat): (r: nat)
    ensures r >= 1
  {
    if height == 0 then 1 else 4 * Weight(height - 1)
  }

  function WeightOf(sys: System, i: nat): (r: nat)
    requires WellFormed(sys) && i < |sys.configs|
    ensures r >= 1
  {
    Weight(Height(sys, i))
  }

  lemma {:induction false} WeightGrows(g: nat, h: nat)
    requires g < h
    ensures 4 * Weight(g) <= Weight(h)
    decreases h
  {
    if g < h - 1 {
      WeightGrows(g, h - 1);
    }
  }

  function Times(a: nat, b: nat): nat {
    a * b
  }

  /** The changes still to come from rule i, by weight. */
  function Share(sys: System, i: nat, d: Dyn, now: Timestamp): nat
    requires WellFormed(sys) && i < |sys.configs| && DynOk(sys, i, d) && Timely(sys.win, now)
  {
    Times(Pending(sys, i, d, now), WeightOf(sys, i))
  }

  function Shares(sys: System, rules: seq<Dyn>, now: Timestamp): (r: seq<nat>)
    requires WellFormed(sys) && Timely(sys.win, now) && |rules| == |sys.configs|
    requires forall i :: 0 <= i < |rules| ==> DynOk(sys, i, rules[i])
    ensures |r| == |rules|
    ensures forall i :: 0 <= i < |rules| ==> r[i] == Share(sys, i, rules[i], now)
  {
    seq(|rules|, i requires 0 <= i < |rules| => Share(sys, i, rules[i], now))
  }

  function Sum(s: seq<nat>): nat {
    if s == [] then 0 else Sum(s[..|s| - 1]) + s[|s| - 1]
  }

  lemma {:induction false} SumAfterUpdate(s: seq<nat>, i: nat, x: nat)
    requires i < |s|
    ensures Sum(s[i := x]) == Sum(s) + x - s[i]
    decreases |s|
  {
    if i < |s| - 1 {
      assert s[i := x][..|s| - 1] == s[..|s| - 1][i := x];
      SumAfterUpdate(s[..|s| - 1], i, x);
    } else {
      assert s[i := x][..|s| - 1] == s[..|s| - 1];
    }
  }

  /** The changes still to come, by weight. */
  function TotalWork(sys: System, w: World, now: Timestamp): nat
    requires WellFormed(sys) && Fit(sys, w) && Timely(sys.win, now)
  {
    Sum(Shares(sys, w.rules, now))
  }

  /** Changing one rule changes the work by that rule's share. */
  lemma TotalAfterUpdate(sys: System, w: World, i: nat, d: Dyn, now: Timestamp)
    requires WellFormed(sys) && Fit(sys, w) && Timely(sys.win, now) && i < |w.rules| && DynOk(sys, i, d)
    ensures Fit(sys, w.(rules := w.rules[i := d]))
    ensures TotalWork(sys, w.(rules := w.rules[i := d]), now) == TotalWork(sys, w, now)
              + Share(sys, i, d, now) - Share(sys, i, w.rules[i], now)
  {
    SumAfterUpdate(Shares(sys, w.rules, now), i, Share(sys, i, d, now));
    SharesAfterUpdate(sys, w.rules, i, d, now);
  }

  lemma SharesAfterUpdate(sys: System, rules: seq<Dyn>, i: nat, d: Dyn, now: Timestamp)
    requires WellFormed(sys) && Timely(sys.win, now) && |rules| == |sys.configs| && i < |rules|
    requires forall j :: 0 <= j < |rules| ==> DynOk(sys, j, rules[j])
    requires DynOk(sys, i, d)
    ensures Shares(sys, rules[i := d], now) == Shares(sys, rules, now)[i := Share(sys, i, d, now)]
  {
  }

  /** Stopping an action makes less new work further down than the rule weighs. */
  lemma {:induction false} StopWork(sys: System, w: World, i: nat, now: Timestamp)
    requires WellFormed(sys) && Fit(sys, w) && Timely(sys.win, now) && i < |w.rules| && w.rules[i].active
    ensures TotalWork(sys, Stop(sys, w, i), now)
         <= TotalWork(sys, w, now) + WeightOf(sys, i) - 1
            + Share(sys, i, w.rules[i].(active := false), now) - Share(sys, i, w.rules[i], now)
    decreases Height(sys, i)
  {
    var v := w.(rules := w.rules[i := w.rules[i].(active := false)]);
    TotalAfterUpdate(sys, w, i, w.rules[i].(active := false), now);
    if sys.configs[i].target.ActivatesRule? {
      var c := sys.configs[i].target.rule;
      assert TargetOk(sys, i);
      var u := v.(rules := v.rules[c := v.rules[c].(enabled := false)]);
      DisabledWork(sys, v, c, now);
      WeightGrows(Height(sys, c), Height(sys, i));
      if u.rules[c].active {
        StopWork(sys, u, c, now);
        ShareAtMost(sys, c, u.rules[c].(active := false), now);
        assert TotalWork(sys, Stop(sys, u, c), now) <= TotalWork(sys, u, now) + WeightOf(sys, c) - 1 + 2 * WeightOf(sys, c);
      }
      assert Stop(sys, w, i) == Stop(sys, u, c);
    }
  }

  lemma DisabledWork(sys: System, v: World, c: nat, now: Timestamp)
    requires WellFormed(sys) && Fit(sys, v) && Timely(sys.win, now) && c < |v.rules|
    ensures var u := v.(rules := v.rules[c := v.rules[c].(enabled := false)]);
            Fit(sys, u) && TotalWork(sys, u, now) == TotalWork(sys, v, now)
  {
    TotalAfterUpdate(sys, v, c, v.rules[c].(enabled := false), now);
    PendingIgnoresEnabled(sys, c, v.rules[c], now);
  }

  lemma PendingIgnoresEnabled(sys: System, i: nat, d: Dyn, now: Timestamp)
    requires WellFormed(sys) && i < |sys.configs| && DynOk(sys, i, d) && Timely(sys.win, now)
    ensures Pending(sys, i, d.(enabled := false), now) == Pending(sys, i, d, now)
  {
  }

  lemma ShareAtMost(sys: System, i: nat, d: Dyn, now: Timestamp)
    requires WellFormed(sys) && i < |sys.configs| && DynOk(sys, i, d) && Timely(sys.win, now)
    ensures Share(sys, i, d, now) <= (if d.active then 3 else 2) * WeightOf(sys, i)
  {
    TimesGrows(Pending(sys, i, d, now), if d.active then 3 else 2, WeightOf(sys, i));
  }

  lemma TimesGrows(a: nat, k: nat, x: nat)
    requires a <= k
    ensures Times(a, x) <= k * x
  {
  }
}
