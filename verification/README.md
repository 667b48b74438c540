# A model of the timer board's firmware

The board is a battery-powered timer. Rules say when channels are switched and when other rules
are; the device sleeps until something has to change, is configured over a serial line with framed
messages, keeps its rules in flash memory, and is updated through a boot loader. This project models
those parts in Dafny and proves what the firmware relies on.

## The rule scheduler

A rule has a period, intervals within it, and an action on a channel or on another rule. The runner
steps through all rules at a time, parents before children, then asks every enabled rule when it will
next change, and sleeps. Its alarm compares only day of month, hour, minute and second, so it wakes
at the start of every month on the way and goes back to sleep.

- `Periods`, `RuleTime`, `NextChange`: one rule's time keeping. Period rolling in closed form, and why
  the computed next change is exact.
- `Network`, `Stepping`: all rules together. The mutual recursion of updating parents, evaluating, and
  switching on children is a function on worlds. It ends because every start or stop uses up work that
  outweighs everything it causes further down the graph.
- `Steps`, `Evaluations`, `Quiet`, `Agreement`: what a whole step achieves, what a step does when
  nothing is due, and why two worlds that agree keep agreeing.
- `Alarm`, `Device`: the alarm, and the central theorem `Device.SleepingIsPolling`.
- `Overslept`: when sleeping is not polling.
- `Outputs`, `Islands`, `LoneRules`, `PairRuns`: what that means for the channels, for a rule that no
  other switches in terms of its schedule alone, for one with a single parent in terms of both schedules.
- `SwitchingOff`, `LeftOn`, `CalmSteps`: exactly what a step makes of a rule and its parent, when it
  leaves the rule switched off with its action running, and when that cannot happen in any graph.
- `Resetting`, `Reloading`: which rules a reset leaves off, and what setting the clock does.
- `Rules`, `Runners`: the classes, updated in place. Every method's new state is the value model's.

Time is a window of the 32-bit time stamps in which no computed time wraps around and no difference
leaves a signed 32-bit number. `0xFFFFFFFF` is the empty time.

## The calendar

`Calendar` counts days, months and years one by one. `TimeLibrary` holds the two conversions of the
time library and proves them inverse over all 2^32 stamps against that count.

## The MIN serial line

`Fletcher` is the checksum, with its closed form and exactly which small changes it misses. `MinWire`
and `MinReceiver` are transmitter and receiver, as functions and as classes, with their round trip,
their resynchronisation, and which frames are delivered at all. `Upload` takes the frames of a rule upload through
the handlers into the store, and `Commands` saves and erases over the line, up to the next power-up.

## Flash memory and the rule store

`Flash` erases rows and programs pages. `EepromSpec` and `EepromDriver` are the one-row write-back
cache as a flat byte array. `RuleLayout` and `RuleStore` are the length-prefixed list of rules with its
saved count and cached cursor, over the flat-array contract of the driver interface. `StoreOnDriver` says
which added rules survive the driver as it is.

## The boot loader

`Crc`, `Xmodem` and `XmodemPort` are the CRC with generator x^16+x^12+x^5+1, the packet sender and the
receiver. Bytes are sequences of bits there.

## Where the code does not do what it says or seems to say

- Finalizing the checksum is not always the identity: the second sum can end at 0x100
  (`Fletcher.FinalizeIsIdentityIff`, `Fletcher.FinalizeChangesSums`).
- A driver write that reaches past its row loses its first byte there and restarts at the beginning of
  the same row (`EepromSpec.WriteMeetsContractIff`, `EepromSpec.CellWritten`).
- A channel that is to be on while its action does not run is off when the board boots, because all
  channels are then, and stays off until the action has run once (`LoneRules.InvertedStartsOff`,
  `LoneRules.ChannelOnceRun`).
- Dates before 2000 are compiled one day late, except in years that follow a leap year
  (`TimeLibrary.EarlierYearsOffByOne`).
- Repeating a packet counts its bytes twice, so the last packet is sent as zeros
  (`Xmodem.ResendingIsRightIff`).
- `mk_gmtime` is said not to restrict its fields; a month past December is folded back into August to
  December, so adding months can go wrong (`TimeLibrary.PlusMonthsIsRightIff`).
- Weeks are meant to begin on Monday, but a Sunday is aligned to the next midnight
  (`Periods.AlignedNotLaterIff`, `Periods.SundayBeginsTomorrow`).
- A rule that its own parent switches off while it is being updated is evaluated all the same, and its
  channel can be left on for good. `SwitchingOff.StepLeavesRunningIff` says exactly when,
  `LeftOn.ChannelStaysOn` shows it, and `CalmSteps.CalmStep` says when it cannot happen in any graph.
- Resetting rules while actions run can leave a rule off that is loaded as on
  (`Resetting.ResetRestoresIff`, `Resetting.ResetLeavesOff`). Setting the clock does that: it loads the
  rules again without stopping them (`min_received_cmds.cpp:147-156`), and decoding a rule in place does
  not set the state of its action, which is assigned only when an action starts, stops, or is built
  another way (`TdlAction.cpp:23`, `:46`, `TdlAction.h:26`). The memory keeps what it held, so the reset
  that follows meets actions that are still marked as running (`Reloading.LoadingLeavesOffIff`,
  `Reloading.ClockSetLosesRule`). Saving rules stops the runner first (`min_received_cmds.cpp:119-122`),
  and a second reset restores every rule (`Device.StopThenStartRestores`).
- The next change of a rule whose period is over lies in the past. That is exactly when it does
  (`NextChange.NextIsInFutureIff`, `Quiet.NextUpdateInFutureIff`). It happens when a rule is switched on
  whose given first period is over by then: the alarm is set for a time that is gone, and the device sleeps
  on while a timer that looks every second would switch channels (`Overslept.Oversleeps`). Otherwise
  sleeping is polling (`Device.AsleepThroughoutIff`, `Device.SleepingIsPolling`).
- A rule whose bytes reach into the next row of the memory need not survive the driver's write
  (`StoreOnDriver.AddedRuleSurvivesIff`).
- 255 rules, or a rule of 255 bytes, read back as none (`RuleStore.NvmRuleManager.AddNewRule`).

## Model

| member | source | states |
|---|---|---|
| `Device.SleepingIsPolling` | firmware/libs/TimerDescriptionLanguage/TdlRuleRunner.cpp:130-180 | Sleeping equals polling: however the timer was started, as long as no step has left an enabled rule in a period that is over, the sleeping timer has at every later second the channels, actions and enabled rules of one that steps every second, and every enabled rule is active exactly when an interval of its current period says so |
| `Device.AsleepThroughoutIff` | firmware/libs/TimerDescriptionLanguage/TdlRuleRunner.cpp:130-180 | That condition is exact: the timer is asleep at every second of a run, its alarm set for a next update that lies ahead, if and only if no step of the run leaves an enabled rule in a period that is over |
| `Device.FreshStartIsNeverLate` | firmware/libs/TimerDescriptionLanguage/TdlRuleRunner.cpp:27-36 | It holds when, during the run, no rule that others switch on has a first period that is already over |
| `Overslept.Oversleeps` | firmware/libs/TimerDescriptionLanguage/TdlRule.cpp:390-395 | And it can fail: a rule is switched on whose given first period is long over, the alarm is set for a time that is gone, and a second later the polling timer has the channel on and the sleeping one has it off |
| `Runners.TdlRuleRunner.SleepThrough` | firmware/libs/TimerDescriptionLanguage/TdlRuleRunner.cpp:231-248 | Under the same condition the imperative runner, started and then driven through its main loop second by second by the alarm, ends every stretch of time with the outputs of the polling timer, and with nothing left to change |
| `Runners.TdlRuleRunner.SleepOn` | firmware/libs/TimerDescriptionLanguage/TdlRuleRunner.cpp:231-252 | Second after second of main loop and alarm is the runner of the value model asleep |
| `LoneRules.ChannelIsSchedule` | firmware/libs/TimerDescriptionLanguage/TdlRuleRunner.cpp:130-180 | The output of the board, in terms of the schedule alone: at every second after the start, while the device sleeps in between, the channel of a rule that no other switches is in the state for a running action if and only if the rule is loaded as enabled and the time since the first start, modulo the period, lies in an interval. That state may be on or off. Before the start the action may still be marked as running, and if it is not, the channel is in the state for a stopped one |
| `LoneRules.ChannelFromOrigin` | firmware/libs/TimerDescriptionLanguage/TdlRule.cpp:390-432 | The same, counted from whichever time the first period begins at |
| `LoneRules.OnlyOnce` | firmware/libs/TimerDescriptionLanguage/TdlRule.cpp:351-432 | A rule with an infinite period and one interval has its channel on in that interval once, counted from the given first start if there is one, even one that is over, and else from the starting time |
| `LoneRules.ChannelOnceRun` | firmware/libs/TimerDescriptionLanguage/TdlAction.cpp:20-52 | Whatever state the channel was in at the start, it follows the schedule from the first second on at which the action runs |
| `LoneRules.InvertedStartsOff` | firmware/libs/TimerDescriptionLanguage/TdlActivator.cpp:9-18 | A channel that is to be on while the action does not run is off when the board boots |
| `LoneRules.ActionIsSchedule` | firmware/libs/TimerDescriptionLanguage/TdlRuleRunner.cpp:130-180 | Whatever the channel does, at every such second the action runs exactly if the schedule says so |
| `PairRuns.PairChannel` | firmware/libs/TimerDescriptionLanguage/TdlRuleRunner.cpp:130-180 | The same for a rule with one parent, in terms of the two schedules: at which second its parent last started, whether it is switched on, and whether its action was left running when its parent stopped |
| `PairRuns.PairChannelFromOrigin` | firmware/libs/TimerDescriptionLanguage/TdlRule.cpp:390-432 | The same, counted from whichever time the parent's first period begins at |
| `PairRuns.PollKeepsTrack` | firmware/libs/TimerDescriptionLanguage/TdlRuleRunner.cpp:152-165 | Second by second the polling timer takes the two rules exactly where their two schedules say |
| `PairRuns.StepKeepsTrack` | firmware/libs/TimerDescriptionLanguage/TdlRule.cpp:467-537 | A step takes the two rules exactly where their two schedules say |
| `PairRuns.RunsWithParent` | firmware/libs/TimerDescriptionLanguage/TdlRule.cpp:467-537 | A rule that only its parent switches on, and that is looked at after it, runs only while the parent does |
| `Reloading.ChannelAfterClockSet` | firmware/libs/min/min_received_cmds.cpp:147-156 | Whatever was running when the clock was set, the channel of a rule that no other switches follows its schedule from the new time; a channel that is off while its action runs does so at once only if the action ran then, because the channels are switched off first |
| `Outputs.ResetFollows` | firmware/libs/TimerDescriptionLanguage/TdlRuleRunner.cpp:46-54 | A reset puts a channel whose rule was marked as running into line with the rule, and keeps one that was in line before |
| `Outputs.ResetChannel` | firmware/libs/TimerDescriptionLanguage/TdlAction.cpp:43-52 | In terms of the state before: it gives the channel of a rule that is marked as running the opposite of the state for a running action, whichever that is, and touches no channel of another rule |
| `Outputs.StartSettles` | firmware/libs/TimerDescriptionLanguage/TdlRuleRunner.cpp:27-36 | After a start such a channel follows its rule, or is as the reset left it and the action does not run |
| `Outputs.StepSettles` | firmware/libs/TimerDescriptionLanguage/TdlAction.cpp:20-52 | And so it stays with every step: once the action has started the channel follows it |
| `LoneRules.ToggleToggles` | firmware/tests/rule_runner_tests.cpp:137-162 | The rule that toggles a channel every second has it on at every second one, from the start |
| `LoneRules.StepOnTrack` | firmware/libs/TimerDescriptionLanguage/TdlRule.cpp:351-388 | A step keeps such a rule as enabled as it was loaded, in a period counted from its first start |
| `Outputs.ChannelOnSchedule` | firmware/libs/TimerDescriptionLanguage/TdlRuleRunner.cpp:130-180 | With rules that switch others: at every second after the start a channel that one rule drives is in the state for a running action, while that rule is enabled, exactly when an interval of the current period contains the time |
| `Outputs.StepFollows` | firmware/libs/TimerDescriptionLanguage/TdlActivator.cpp:9-30 | A step keeps such a channel, on or off while its action runs, in line with the action of its rule |
| `Outputs.UpdateFollows` | firmware/libs/TimerDescriptionLanguage/TdlRule.cpp:481-491 | So does the update of any rule, with its parents and all it switches on |
| `Outputs.ToggleIsCovered` | firmware/tests/rule_runner_tests.cpp:137-162 | The rule that toggles a channel every second from 1 January 2000 on meets all that the theorems require |
| `Device.UngivenStartsAreFresh` | firmware/libs/TimerDescriptionLanguage/TdlRule.cpp:390-432 | By inspection of the rules: switched-on rules without a given first period whose period is infinite or at least its own alignment unit never have a first period that is over |
| `Device.SleepingAgrees` | firmware/libs/TimerDescriptionLanguage/TdlRuleRunner.cpp:130-150 | From any sleeping state: at every later second the sleeping and the polling timer agree, also on all that a later look can bring out, and the runner is asleep again |
| `Device.SecondStaysAsleepIff` | firmware/libs/TimerDescriptionLanguage/TdlRuleRunner.cpp:138-176 | A sleeping timer is asleep again a second later, its alarm set for a next update that lies ahead, exactly if the last step left no enabled rule in a period that is over |
| `Device.WaitsForAChange` | firmware/libs/TimerDescriptionLanguage/TdlRuleRunner.cpp:138-176 | A sleeping timer waits for exactly the soonest such second as seen from its last step, so it is not woken for nothing |
| `Device.WokenOnTime` | firmware/libs/TimerDescriptionLanguage/TdlRuleRunner.cpp:185-219 | An alarm that has not gone off since it was set goes off at the time of the next update, never later |
| `Device.StartFallsAsleepIff` | firmware/libs/TimerDescriptionLanguage/TdlRuleRunner.cpp:27-36 | Whatever the state before, starting (reset, a step, a first update) ends asleep with the next update ahead exactly if that update leaves no enabled rule in a period that is over |
| `Device.StartLeavesCurrent` | firmware/libs/TimerDescriptionLanguage/TdlRuleRunner.cpp:27-36 | Starting makes two steps, so that only a rule that others switch on can be in such a period |
| `Device.ResetEnables` | firmware/libs/TimerDescriptionLanguage/TdlRuleRunner.cpp:46-54 | From a stopped state a reset makes every rule as enabled as it was loaded, in no period, its action stopped, and touches no channel |
| `Device.StopThenStartRestores` | firmware/libs/TimerDescriptionLanguage/TdlRuleRunner.cpp:38-54 | Stopping and then resetting again restores every rule whatever was running |
| `Resetting.ResetRestoresIff` | firmware/libs/TimerDescriptionLanguage/TdlRuleRunner.cpp:46-54 | From any state, in terms of that state alone: after a reset a rule is enabled if and only if it was loaded as enabled and not this: a parent of it runs, and that parent and every rule from which a chain of running rules leads to it are reset after it |
| `Resetting.ResetRestoresParentless` | firmware/libs/TimerDescriptionLanguage/TdlRuleRunner.cpp:46-54 | So a rule that no other switches always comes back as it was loaded |
| `Resetting.ResetLeavesOff` | firmware/libs/TimerDescriptionLanguage/TdlRuleRunner.cpp:46-54 | Two rules, the second switching the first on, of which the first is loaded as on and left off |
| `Reloading.LoadingLeavesOffIff` | firmware/libs/TimerDescriptionLanguage/TdlRules.cpp:59-81 | Loading the rules again in place first changes nothing about that, because the state of an action is not loaded |
| `Reloading.ClockSetLosesRule` | firmware/libs/min/min_received_cmds.cpp:147-156 | Setting the clock while a rule and its parent run: a rule loaded as on has its channel off, when a timer that boots at that time has it on |
| `Resetting.StopExact` | firmware/libs/TimerDescriptionLanguage/TdlAction.cpp:43-52 | Stopping an action disables and stops exactly the rules to which an unbroken chain of running rules leads from it, and keeps their periods |
| `Resetting.StopSwitches` | firmware/libs/TimerDescriptionLanguage/TdlAction.cpp:43-52 | It puts the channel of the rule at the end of that chain into the opposite of the state for a running action, whichever that is, and touches no other channel |
| `Resetting.StopSwitchesNothing` | firmware/libs/TimerDescriptionLanguage/TdlAction.cpp:43-52 | And it touches no channel at all when no rule of the chain has one |
| `Alarm.AlarmIsNeverLate` | firmware/libs/TimerDescriptionLanguage/TdlRuleRunner.cpp:185-204 | After the setting time the alarm first goes off at the next update if that is this month, else at the start of the coming month, which the update does not precede; it does not go off in between |
| `Alarm.RearmingEnds` | firmware/libs/TimerDescriptionLanguage/TdlRuleRunner.cpp:138-150 | A wake-up that is too early lies in a later month than the one before and not after that of the update |
| `Alarm.Wakes` | firmware/libs/TimerDescriptionLanguage/TdlRuleRunner.cpp:138-150 | The wake-ups up to an update end, the last one exactly at it and all others before it |
| `Alarm.WakesPerMonth` | firmware/libs/TimerDescriptionLanguage/TdlRuleRunner.cpp:185-204 | There is one wake-up for each month begun on the way and one for the update, which coincide when it falls on the start of a month |
| `Quiet.QuietUntilNext` | firmware/libs/TimerDescriptionLanguage/TdlRuleRunner.cpp:88-101 | After a step with no enabled rule in a period that is over, the next update lies in the future and no action has to change at any second before it |
| `Quiet.NextUpdateInFutureIff` | firmware/libs/TimerDescriptionLanguage/TdlRuleRunner.cpp:88-101 | After any step the next update lies in the future if and only if no enabled rule with intervals is in a period that is over |
| `Quiet.NextUpdateIsExact` | firmware/libs/TimerDescriptionLanguage/TdlRuleRunner.cpp:88-101 | After a step the next update is the soonest of those seconds over all enabled rules, empty if there is none: neither later nor earlier |
| `Overslept.NextUpdateInThePast` | firmware/libs/TimerDescriptionLanguage/TdlRuleRunner.cpp:88-101 | The step that switches that rule on puts the next update into the past |
| `Quiet.QuietStep` | firmware/libs/TimerDescriptionLanguage/TdlRuleRunner.cpp:152-165 | A step at a second when every action already is as it should be changes no channel, no action and no enabling, only time keeping |
| `Quiet.QuietUpdates` | firmware/libs/TimerDescriptionLanguage/TdlRule.cpp:481-491 | The same for the update of one rule, parents included |
| `Agreement.StepAgrees` | firmware/libs/TimerDescriptionLanguage/TdlRuleRunner.cpp:152-165 | Two states that agree on everything a look at this time can bring out take the same step |
| `Agreement.UpdateAgrees` | firmware/libs/TimerDescriptionLanguage/TdlRule.cpp:481-491 | The same through the update of one rule, its parents and what it switches on |
| `Agreement.StopAgrees` | firmware/libs/TimerDescriptionLanguage/TdlAction.cpp:43-52 | The same through stopping an action and all it had switched on |
| `Agreement.MatchingLater` | firmware/libs/TimerDescriptionLanguage/TdlRule.cpp:351-388 | Such states also agree at every later time |
| `Steps.StepIsComplete` | firmware/libs/TimerDescriptionLanguage/TdlRuleRunner.cpp:152-165 | A step ends; every rule enabled at its end has been evaluated in it, at its time, and is as its intervals say; every evaluation came after those of all enabled parents |
| `Evaluations.EveryEnabledRuleIsEvaluated` | firmware/libs/TimerDescriptionLanguage/TdlRuleRunner.cpp:152-165 | Every rule enabled at the end of a step is among the evaluations the step made, and each of those was made when all enabled parents of the rule had been evaluated |
| `Evaluations.EvaluateExtends` | firmware/libs/TimerDescriptionLanguage/TdlRule.cpp:498-537 | An evaluation, with all it switches on, only adds to the evaluations made and marks no rule that is not among them |
| `Steps.StepIsCurrent` | firmware/libs/TimerDescriptionLanguage/TdlRuleRunner.cpp:152-165 | A rule left in a period that is over was looked at for the first time, when its first period had already ended |
| `Stepping.Evaluate` | firmware/libs/TimerDescriptionLanguage/TdlRule.cpp:498-537 | Evaluating a rule terminates on an acyclic graph, leaves it marked and as its intervals say, and breaks nothing established for any other rule |
| `Stepping.RunParents` | firmware/libs/TimerDescriptionLanguage/TdlRule.cpp:467-479 | Afterwards no enabled parent is left unevaluated, and nothing established before is lost |
| `Stepping.UpdateWithParents` | firmware/libs/TimerDescriptionLanguage/TdlRule.cpp:493-496 | Parents first, then the rule: the rule ends evaluated and settled, all others keep what they had |
| `Stepping.Update` | firmware/libs/TimerDescriptionLanguage/TdlRule.cpp:481-491 | The rule is not left enabled and unevaluated, and all rules keep what they had |
| `Network.Stop` | firmware/libs/TimerDescriptionLanguage/TdlAction.cpp:43-52 | Stopping an action stops and disables only rules further down the graph, and nothing else about them changes; `Resetting.StopExact` says which rules and `Resetting.StopSwitches` what becomes of the channels |
| `Network.StopWork` | firmware/libs/TimerDescriptionLanguage/TdlActivator.cpp:9-18 | Why stopping ends a chain: it makes less new work further down than one change of the stopped rule outweighs |
| `Network.PendingParts` | firmware/libs/TimerDescriptionLanguage/TdlRule.cpp:498-537 | Every start or stop that an evaluation makes uses up one of the at most three changes a rule has left at this time |
| `Stepping.Launch` | firmware/libs/TimerDescriptionLanguage/TdlActivator.cpp:20-30 | Switching on a rule before evaluating it costs less work than the start of the action has used up |
| `SwitchingOff.StepOfPair` | firmware/libs/TimerDescriptionLanguage/TdlRule.cpp:467-537 | Exactly what a step in either direction makes of a channel rule and its only parent, itself without parents, in a graph of any size: enabling, action and period of both, from their states before the step |
| `SwitchingOff.StepLeavesRunningIff` | firmware/libs/TimerDescriptionLanguage/TdlRule.cpp:481-491 | It leaves the rule switched off with its action running if and only if it was enabled, is updated before its parent, the interval of the parent is over and its own is not; or it was left so before and its parent neither starts nor stops; or its parent, looked at for the first time, starts and stops again |
| `SwitchingOff.BegunNeverFalters` | firmware/libs/TimerDescriptionLanguage/TdlRule.cpp:351-388 | That last case is only for a parent that has not begun its period and finds a first one that is over |
| `LeftOn.ChannelStaysOn` | firmware/libs/TimerDescriptionLanguage/TdlRule.cpp:481-491 | Two rules at which that happens: the step leaves the child switched off with its channel on, and so it stays at every later second |
| `LeftOn.StrandedForGood` | firmware/libs/TimerDescriptionLanguage/TdlRule.cpp:481-491 | A rule left so keeps its action running for good when its parent has no interval left |
| `CalmSteps.CalmStep` | firmware/libs/TimerDescriptionLanguage/TdlRule.cpp:467-537 | In any graph, on any group of rules that switches none outside and that none outside switches, from a state in which no rule of the group that switches others has an interval that is over: a step in either direction switches no rule of the group off, and leaves none running that is switched off |
| `CalmSteps.ChannelAfterCalmStep` | firmware/libs/TimerDescriptionLanguage/TdlRuleRunner.cpp:152-165 | After such a step in either direction the channel of a rule of the group is in the state for a running action exactly if the rule is enabled and in an interval |
| `CalmSteps.LateIsCalm` | firmware/libs/TimerDescriptionLanguage/TdlRule.cpp:467-537 | The two rules of which one is left running are calm at every second before that |
| `CalmSteps.ChannelAtCalmSecond` | firmware/libs/TimerDescriptionLanguage/TdlRuleRunner.cpp:130-180 | At every such second the channel of the sleeping device is in the state for a running action exactly if its rule is enabled and an interval of its current period contains the time, whatever switches that rule |
| `Islands.UpdateElsewhere` | firmware/libs/TimerDescriptionLanguage/TdlRule.cpp:481-537 | Updating a rule, with its parents and all it switches on, changes no rule of a group that switches none outside and that none outside switches |
| `SwitchingOff.RuleUpdated` | firmware/libs/TimerDescriptionLanguage/TdlRule.cpp:467-496 | What an update of such a rule comes to: its parent first, and then a look at the rule even if that has switched it off |
| `RuleTime.RollingIsPathIndependent` | firmware/libs/TimerDescriptionLanguage/TdlRule.cpp:379-386 | Any non-decreasing sequence of looks at a rule ends in the period that one look at the last time finds |
| `RuleTime.RolledBounds` | firmware/libs/TimerDescriptionLanguage/TdlRule.cpp:379-386 | Rolling ends with start <= now < start + period, a whole number of periods on |
| `RuleTime.TickTwice` | firmware/libs/TimerDescriptionLanguage/TdlRule.cpp:351-388 | Looking now and again later is the same as looking only later |
| `RuleTime.TickMakesCurrent` | firmware/libs/TimerDescriptionLanguage/TdlRule.cpp:351-388 | A second look always finds a period that is not over |
| `RuleTime.ActiveModuloPeriod` | firmware/libs/TimerDescriptionLanguage/TdlRule.cpp:507-519 | In its current period a rule is active if and only if some interval contains the time since the original start modulo the period |
| `RuleTime.ActiveInWindow` | firmware/libs/TimerDescriptionLanguage/TdlRule.cpp:343-349 | Within the window of time nothing wraps around: active means inside start + interval for some interval |
| `NextChange.NothingChangesBefore` | firmware/libs/TimerDescriptionLanguage/TdlRule.cpp:278-321 | From a look in a current period until the computed next change the rule stays as active as it was, whatever second one looks at |
| `NextChange.NextIsInFutureIff` | firmware/libs/TimerDescriptionLanguage/TdlRule.cpp:278-321 | The computed next change lies in the future if and only if the period has not run out |
| `NextChange.NextChangeIsExact` | firmware/libs/TimerDescriptionLanguage/TdlRule.cpp:278-321 | Over the offsets of the intervals alone: while intervals contain the time the computed next change is the end of the first of them, while none does the soonest later start, and in both cases the end of the period if that comes sooner |
| `NextChange.NextChangeIsUnique` | firmware/libs/TimerDescriptionLanguage/TdlRule.cpp:278-321 | Only one second meets that description |
| `NextChange.NothingToCome` | firmware/libs/TimerDescriptionLanguage/TdlRule.cpp:278-335 | A rule without intervals, or one that has not begun, expects no change |
| `NextChange.ClosestIsMinimal` | firmware/libs/TimerDescriptionLanguage/TdlRule.cpp:226-242 | The search over signed 32-bit distances finds the soonest start after now, or that there is none |
| `NextChange.CurrentIntervalFound` | firmware/libs/TimerDescriptionLanguage/TdlRule.cpp:265-276 | The search for the current interval finds one exactly when there is one |
| `NextChange.AlignedStartIsFresh` | firmware/libs/TimerDescriptionLanguage/TdlRule.cpp:390-432 | A period without a given start that is no shorter than its alignment unit contains now or has yet to begin |
| `RuleTime.InitialBeginsAt` | firmware/libs/TimerDescriptionLanguage/TdlRule.cpp:390-432 | A first period begins where it was told to; at once if it is infinite; and else with the day, hour or minute that the time lies in, or with the Monday of its week, the coming one on a Sunday |
| `RuleTime.BeginsAtIsUnique` | firmware/libs/TimerDescriptionLanguage/TdlRule.cpp:390-432 | No other time meets that description |
| `Rules.InfiniteBeginsAtOnce` | firmware/libs/TimerDescriptionLanguage/TdlRule.cpp:390-406 | The longest field of an infinite period is its years, but it begins at the given time or at once, not with the year |
| `Rules.MillionYears` | firmware/libs/datetime/Period.h:76-78 | The period made to be infinite is |
| `Rules.TdlRule.RollPeriods` | firmware/libs/TimerDescriptionLanguage/TdlRule.cpp:379-386 | The while loop terminates in the period of the closed form and leaves its intervals instantiated |
| `Rules.TdlRule.UpdateCurrentPeriodIntervals` | firmware/libs/TimerDescriptionLanguage/TdlRule.cpp:343-349 | The current intervals are those of the schedule at the current start |
| `Rules.TdlRule.UpdateInitialStartOfCurrentPeriod` | firmware/libs/TimerDescriptionLanguage/TdlRule.cpp:390-432 | The first period starts at the given time, now, or the start of the unit now lies in |
| `Rules.TdlRule.GetEndOfCurrentPeriod` | firmware/libs/TimerDescriptionLanguage/TdlRule.cpp:337-341 | Empty for no period or an infinite one, else start plus the length of all fields, modulo 2^32 |
| `Rules.TdlRule.IsActiveAt` | firmware/libs/TimerDescriptionLanguage/TdlRule.cpp:508-519 | True exactly when some current interval contains now |
| `Rules.TdlRule.GetCurrentInterval` | firmware/libs/TimerDescriptionLanguage/TdlRule.cpp:265-276 | The first interval that contains the time of the last update |
| `Rules.TdlRule.GetNextInterval` | firmware/libs/TimerDescriptionLanguage/TdlRule.cpp:226-242 | The interval found by the search over distances |
| `Rules.TdlRule.GetNextStateChangeTime` | firmware/libs/TimerDescriptionLanguage/TdlRule.cpp:278-335 | The next change of the value model, for rules without an event; `NextChange.NextChangeIsExact` says which second that is |
| `Rules.ToInterval` | firmware/libs/datetime/PeriodInterval.cpp:16-18 | Start and end are the period start with the fields of the two offsets added, years and months included |
| `Runners.TdlRuleRunner.UpdateInternalTimeKeepingVariables` | firmware/libs/TimerDescriptionLanguage/TdlRule.cpp:351-388 | The world with the period of the rule found, its action stopped first where that is due |
| `Runners.TdlRuleRunner.StopAction` | firmware/libs/TimerDescriptionLanguage/TdlAction.cpp:43-52 | The world after stopping the action and all it had switched on, channels included |
| `Runners.TdlRuleRunner.StartAction` | firmware/libs/TimerDescriptionLanguage/TdlAction.cpp:20-41 | An action that runs is left alone; else the target is switched, and a rule as target is evaluated with its parents |
| `Runners.TdlRuleRunner.EnableRule` | firmware/libs/TimerDescriptionLanguage/TdlRule.cpp:32-35 | The rule is enabled and forgets its period |
| `Runners.TdlRuleRunner.UpdateThisRuleOnly` | firmware/libs/TimerDescriptionLanguage/TdlRule.cpp:498-537 | The heap of rules goes the way of the value model |
| `Runners.TdlRuleRunner.FindParentRules` | firmware/libs/TimerDescriptionLanguage/TdlRule.cpp:450-465 | Exactly the rules whose target is this one, in order |
| `Runners.TdlRuleRunner.RunParentRulesIfNecessary` | firmware/libs/TimerDescriptionLanguage/TdlRule.cpp:467-479 | The loop over the parents is the recursion of the value model |
| `Runners.TdlRuleRunner.UpdateThisRuleAndParentsIfNecessary` | firmware/libs/TimerDescriptionLanguage/TdlRule.cpp:493-496 | Parents, then the rule |
| `Runners.TdlRuleRunner.Update` | firmware/libs/TimerDescriptionLanguage/TdlRule.cpp:481-491 | Nothing unless enabled and not evaluated in this step |
| `Runners.TdlRuleRunner.SetAllRulesNotRunThisStep` | firmware/libs/TimerDescriptionLanguage/TdlRuleRunner.cpp:71-76 | All marks cleared, nothing else |
| `Runners.TdlRuleRunner.StepTo` | firmware/libs/TimerDescriptionLanguage/TdlRuleRunner.cpp:79-86 | A step from the first rule to the last |
| `Runners.TdlRuleRunner.UpdateFromLast` | firmware/libs/TimerDescriptionLanguage/TdlRuleRunner.cpp:152-165 | A step from the last rule to the first |
| `Runners.TdlRuleRunner.FindOverallNextStateChangeTime` | firmware/libs/TimerDescriptionLanguage/TdlRuleRunner.cpp:88-101 | The earliest change that an enabled rule expects, empty for none |
| `Runners.TdlRuleRunner.SetRtcInterrupt` | firmware/libs/TimerDescriptionLanguage/TdlRuleRunner.cpp:185-219 | The alarm for the next update, or for the first of the month |
| `Runners.TdlRuleRunner.HandleWakeUp` | firmware/libs/TimerDescriptionLanguage/TdlRuleRunner.cpp:130-180 | Steps if and only if the next update is due; sets the alarm either way |
| `Runners.TdlRuleRunner.MainLoopCallback` | firmware/libs/TimerDescriptionLanguage/TdlRuleRunner.cpp:231-252 | One second of the value model |
| `Runners.TdlRuleRunner.ResetAllRules` | firmware/libs/TimerDescriptionLanguage/TdlRuleRunner.cpp:46-54 | Every rule reset in turn |
| `Runners.TdlRuleRunner.StartRunning` | firmware/libs/TimerDescriptionLanguage/TdlRuleRunner.cpp:27-36 | The start of the value model |
| `Quiet.NextAmong` | firmware/libs/TimerDescriptionLanguage/TdlRuleRunner.cpp:88-101 | No enabled rule expects a change before the result, and one expects it then unless it is empty |
| `Periods.Plus` | firmware/libs/datetime/Period.cpp:89-112 | The fields are added in order, each narrowed to 16 bits, years and months by the calendar; for fields of fixed length that is the sum of their lengths, modulo 2^32. The rows that follow say what a field adds |
| `Periods.UnitsNest` | firmware/libs/datetime/Period.cpp:89-112 | A week is seven days, a day 24 hours, an hour 60 minutes, a minute 60 seconds, and a second one |
| `Periods.NothingAdded` | firmware/libs/datetime/Period.cpp:89-112 | Milliseconds add nothing |
| `Periods.YearsAdded` | firmware/libs/datetime/Period.cpp:89-112 | A field of years that fits gives the same date and time that many years later |
| `Periods.AddedInOrder` | firmware/libs/datetime/Period.cpp:89-112 | Of two fields the first is added first |
| `Periods.ComputeIsInfinite` | firmware/libs/datetime/Period.h:63 | True exactly when the first field of years says a million |
| `Periods.ComputeLongestField` | firmware/libs/datetime/Period.cpp:160-171 | The longest kind of field whatever the values |
| `Periods.LongestField` | firmware/libs/datetime/Period.cpp:160-171 | It is among the fields and none is longer |
| `Periods.AlignedValue` | firmware/libs/TimerDescriptionLanguage/TdlRule.cpp:408-432 | At every 32-bit time aligning rounds down to the whole year, month, day, hour or minute; a Sunday is put into the week that begins the next midnight, modulo 2^32 |
| `Periods.AlignedNotLaterIff` | firmware/libs/TimerDescriptionLanguage/TdlRule.cpp:408-432 | At every 32-bit time the aligned start is not in the future, except for periods of weeks on a Sunday and on the very first day |
| `Periods.AlignedSunday` | firmware/libs/TimerDescriptionLanguage/TdlRule.cpp:412-413 | On any Sunday a period of weeks begins at the next midnight |
| `Periods.SundayBeginsTomorrow` | firmware/libs/TimerDescriptionLanguage/TdlRule.cpp:412-413 | Sunday 9 January 2000 at noon is put into the week that begins at midnight |
| `Periods.AlignedBounds` | firmware/libs/TimerDescriptionLanguage/TdlRule.cpp:412-432 | For weeks, from the second day on, and all shorter units the aligned start is less than a week before now and at most a day after it, and its unit is not over |
| `Calendar.LeapYearsAreGregorian` | firmware/libs/time/isLeap.c:37-56 | The code follows the Gregorian rule |
| `Calendar.DaysBeforeMonthTable` | firmware/libs/time/month_length.c:38-48 | The month lengths add up to the usual table |
| `Calendar.BrokenDownIsConsistent` | firmware/libs/time/gmtime_r.c:46-142 | Counting days down gives a real date, time, day of week and day of year, and counting them up again gives the same second |
| `Calendar.StampIsInverse` | firmware/libs/time/mk_gmtime.c:51-112 | A real date and time is what its second breaks down to |
| `TimeLibrary.GmTime` | firmware/libs/time/gmtime_r.c:37-144 | The division tricks give the day-counting calendar for every 32-bit stamp, 2100 included |
| `TimeLibrary.YearAndDay` | firmware/libs/time/gmtime_r.c:71-105 | Year and day of year, and a leap flag that may be 0 in a leap year only on its first day |
| `TimeLibrary.MonthAndDay` | firmware/libs/time/gmtime_r.c:112-142 | Month and day of month, also with that flag |
| `TimeLibrary.MkGmTime` | firmware/libs/time/mk_gmtime.c:39-113 | The stamp of the fields, modulo 2^32, for any 16-bit year and any month number: a month past December is folded into August to December, and before 2000 the leap days are divided as the code does |
| `TimeLibrary.CompiledStampOf` | firmware/libs/time/mk_gmtime.c:51-61 | From 2000 to 2399 the days counted up to a year are those of the calendar |
| `TimeLibrary.CompiledStampIsStamp` | firmware/libs/time/mk_gmtime.c:66-97 | For real months that is the day-counting stamp |
| `TimeLibrary.MonthsFold` | firmware/libs/time/mk_gmtime.c:66-97 | A month past December is compiled as that of August to December which lies a number of fives before it, and a negative one as February |
| `TimeLibrary.CompileBrokenDown` | firmware/libs/time/mk_gmtime.c:39-113 | mk_gmtime(gmtime_r(t)) = t for every 32-bit t |
| `TimeLibrary.BreakDownCompiled` | firmware/libs/time/gmtime_r.c:37-144 | gmtime_r(mk_gmtime(tm)) = tm for every real date in range |
| `TimeLibrary.EarlierYearsOffByOne` | firmware/libs/time/mk_gmtime.c:51-61 | Dates from 1902 to 1999 are compiled one day late, except in a year that follows a leap year |
| `TimeLibrary.PlusYears` | firmware/libs/datetime/DateTime.cpp:190-196 | The stamp of the fields with the year changed, capped as the code does |
| `TimeLibrary.PlusYearsIsRight` | firmware/libs/datetime/DateTime.cpp:190-196 | Adding years keeps month, day and time, day of week and year fitting; only a 29 February can become 1 March |
| `TimeLibrary.PlusYearsIsCapped` | firmware/libs/datetime/DateTime.cpp:158-170 | Past what a stamp can hold the year is 2136, and before 1900 it is 1900 |
| `TimeLibrary.PlusMonths` | firmware/libs/datetime/DateTime.cpp:176-188 | The stamp of the fields with months divided and truncated as the code does |
| `TimeLibrary.PlusMonthsIsRightIff` | firmware/libs/datetime/DateTime.cpp:176-188 | Adding months gives the right month if and only if month and remainder stay inside one year |
| `TimeLibrary.DecemberPlusOneMonth` | firmware/libs/datetime/DateTime.cpp:176-188 | The case that fails: 1 December 2017 plus one month lands in August |
| `Fletcher.StepValue` | firmware/libs/min/layer1.c:56-65 | One step adds and carries once, without wrapping, and keeps the sums in range |
| `Fletcher.ChecksumClosedForm` | firmware/libs/min/layer1.c:50-72 | The checksum bytes are the byte sum and the position-weighted sum, reduced to 1..255 |
| `Fletcher.FinalizeIsIdentityIff` | firmware/libs/min/layer1.c:199-204 | Finalizing is the identity if and only if the second sum does not stand at 0x100, and leaves both in 1..255 |
| `Fletcher.FinalizeChangesSums` | firmware/libs/min/layer1.c:199-204 | A message on which it is not the identity |
| `Fletcher.AdjacentChangeDetected` | firmware/libs/min/layer1.c:50-72 | A change of one or two adjacent message bytes goes unnoticed if and only if every changed byte swapped 0x00 with 0xFF |
| `Fletcher.AdjacentChangeInBody` | firmware/libs/min/layer1.c:154-169 | The same over a whole received body, checksum bytes included |
| `MinWire.WireLength` | firmware/libs/min/layer1.c:15-24 | A frame on the wire is at most 32 bytes, and at most half a byte longer per body byte |
| `MinWire.WireForm` | firmware/libs/min/layer1.c:211-225 | After the header no three header bytes follow one another, and two are always followed by the stuff byte |
| `MinWire.Transmitter.StuffedTxByte` | firmware/libs/min/layer1.c:211-225 | Byte by byte the stuffed form, countdown and sums of all bytes so far |
| `MinWire.Transmitter.TxFrame` | firmware/libs/min/layer1.c:240-284 | The whole frame, or nothing without a host or without room for the longest frame |
| `MinReceiver.Step` | firmware/libs/min/layer1.c:92-181 | Every byte keeps the payload index inside the 15-byte buffer |
| `MinReceiver.RoundTrip` | firmware/libs/min/layer1.c:92-181 | From any state that has seen no header byte a transmitted frame is delivered exactly once, with nothing else, and the receiver is ready again |
| `MinReceiver.BackToBack` | firmware/libs/min/layer1.c:92-181 | Frames sent back to back arrive as that same sequence |
| `MinReceiver.Resynchronises` | firmware/libs/min/layer1.c:99-124 | After any noise at most the first frame is lost; every later one arrives, in order, and nothing else does |
| `MinReceiver.HarmlessNoise` | firmware/libs/min/layer1.c:99-124 | Noise that does not end in a header byte loses nothing |
| `MinReceiver.FrameArrivesIff` | firmware/libs/min/layer1.c:99-124 | Whatever the receiver was doing and whatever the frame: a transmitted frame is among the deliveries if and only if the receiver counts no header byte when the frame begins |
| `MinReceiver.FirstFrameLostIff` | firmware/libs/min/layer1.c:99-124 | So the first frame after noise is lost exactly if the noise ends in a number of header bytes that is not a multiple of three |
| `MinReceiver.StuffIsAccepted` | firmware/libs/min/layer1.c:211-225 | The receiver takes from stuffed bytes exactly the bytes that were stuffed |
| `MinReceiver.DeliveredIffAccepted` | firmware/libs/min/layer1.c:92-181 | Whatever bytes come stuffed as a body: they are delivered, once and as the frame they stand for, if and only if their checksum is right and they are followed by the byte that ends a frame; otherwise nothing is |
| `MinReceiver.DamagedDeliveredIff` | firmware/libs/min/layer1.c:154-169 | A frame with two adjacent bytes changed on the way, but not its length, is delivered if and only if every change swapped 0x00 with 0xFF |
| `MinReceiver.StuffPair` | firmware/libs/min/layer1.c:211-225 | Two header bytes are sent with 0x55 behind them |
| `MinReceiver.SaveFrameOnWire` | firmware/libs/min/layer1.c:240-284 | The frame that saves the rules, byte by byte |
| `MinReceiver.Receiver.RxByte` | firmware/libs/min/layer1.c:92-181 | The imperative receiver goes the way of the state machine and delivers what it delivers; `MinReceiver.DeliveredIffAccepted` says when that is |
| `Flash.FlashMemory.ProgramPage` | firmware/libs/nvm/SamdEmulatedEepromDriver.cpp:172-187 | A page is programmed only if its row was erased since it was last, and programming can only clear bits |
| `EepromDriver.SamdEmulatedEepromDriver.Read` | firmware/libs/nvm/SamdEmulatedEepromDriver.cpp:52-114 | Reads any stretch across pages up to the end of the region: exactly the contents, which stay as they are; beyond the end it fails and reads nothing |
| `EepromDriver.SamdEmulatedEepromDriver.NextStretch` | firmware/libs/nvm/SamdEmulatedEepromDriver.cpp:66-84 | The part of the bytes that lies in the page and in none before |
| `EepromDriver.SamdEmulatedEepromDriver.Write` | firmware/libs/nvm/SamdEmulatedEepromDriver.cpp:116-143 | The contents after the write, for any length and any address, in the region or not, with addresses repeating every 4 MB; nothing outside the region changes |
| `EepromDriver.SamdEmulatedEepromDriver.PerformAll` | firmware/libs/nvm/SamdEmulatedEepromDriver.cpp:48-157 | Any list of reads, single-row writes and flushes, done through the driver, leaves the contents and hands out the answers of the flat array |
| `EepromDriver.SamdEmulatedEepromDriver.FillRow` | firmware/libs/nvm/SamdEmulatedEepromDriver.cpp:131-143 | The write loop with its flush and restart: the row as written, the rest as before |
| `EepromDriver.SamdEmulatedEepromDriver.FlushRow` | firmware/libs/nvm/SamdEmulatedEepromDriver.cpp:145-157 | Flushing never changes the contents, and afterwards flash holds them |
| `EepromDriver.SamdEmulatedEepromDriver.ReadRowIntoRowBuffer` | firmware/libs/nvm/SamdEmulatedEepromDriver.cpp:227-247 | Buffering a row changes no contents; a row beyond the region changes nothing at all |
| `EepromDriver.SamdEmulatedEepromDriver.WriteRowFromBuffer` | firmware/libs/nvm/SamdEmulatedEepromDriver.cpp:206-209 | Programming an erased row leaves exactly the buffer in it and nothing else changed |
| `EepromSpec.WriteMeetsContractIff` | firmware/libs/nvm/NvmDriverInterface.h:16-31 | The driver is a flat byte array for a write if and only if the write stays inside one row |
| `EepromSpec.CrossingByteIsLost` | firmware/libs/nvm/SamdEmulatedEepromDriver.cpp:133-140 | The first byte that crosses into the next row never arrives |
| `EepromSpec.CellWritten` | firmware/libs/nvm/SamdEmulatedEepromDriver.cpp:131-143 | A write of any length leaves in each cell of the row the last of the bytes that go to it, where byte i goes to cell index + i modulo 257 and cell 256 is none |
| `EepromSpec.CellKept` | firmware/libs/nvm/SamdEmulatedEepromDriver.cpp:131-143 | And it leaves alone the cells that none of its bytes goes to |
| `EepromSpec.RunHoldsLastWritten` | firmware/libs/nvm/NvmDriverInterface.h:16-31 | Over any such list every byte is the last one written there, or the one it started with |
| `EepromSpec.ReadsLastWritten` | firmware/libs/nvm/NvmDriverInterface.h:16-31 | A read after any such list is handed exactly the bytes last written |
| `RuleLayout.LookupArrives` | firmware/libs/nvm/NvmRuleManager.cpp:74-94 | From a cursor that is unused or on a rule, looking up a rule arrives at it, and what it costs |
| `RuleLayout.LookupArrivesIff` | firmware/libs/nvm/NvmRuleManager.cpp:74-94 | From any cursor it arrives, if and only if the step the cursor allows is right |
| `RuleLayout.StaleCursorMisleads` | firmware/libs/nvm/NvmRuleManager.cpp:96-101 | After a clear and a new upload an old cursor reads the wrong bytes |
| `RuleLayout.RuleAppended` | firmware/libs/nvm/NvmRuleManager.cpp:43-53 | A rule written behind the last one extends the list exactly if it is shorter than 255 bytes, and leaves count, prefix and addresses intact |
| `StoreOnDriver.AddedRuleSurvivesIff` | firmware/libs/nvm/SamdEmulatedEepromDriver.cpp:116-143 | Through the row-cached driver it does so, whatever lies behind the list, if and only if its bytes also stay in the row they begin in |
| `RuleStore.NvmRuleManager.constructor` | firmware/libs/nvm/NvmRuleManager.cpp:18-32 | A manager over existing memory holds exactly the rules the stored count covers and adds after the last of them |
| `RuleStore.NvmRuleManager.PowerUp` | firmware/libs/nvm/NvmRuleManager.cpp:18-32 | A manager made over the memory that another leaves has exactly the rules that one saved |
| `RuleStore.NvmRuleManager.AddNewRule` | firmware/libs/nvm/NvmRuleManager.cpp:43-53 | Appends if there is room, else changes nothing; the list stays well formed if and only if the rule is shorter than 255 bytes and there were fewer than 255 rules; the saved prefix stays |
| `RuleStore.NvmRuleManager.SaveRuleCountToNvm` | firmware/libs/nvm/NvmRuleManager.cpp:103-106 | All rules are saved, but a count of 255 reads back as none |
| `RuleStore.NvmRuleManager.ClearRules` | firmware/libs/nvm/NvmRuleManager.cpp:96-101 | No rules, saved or not |
| `RuleStore.NvmRuleManager.GetRuleInfo` | firmware/libs/nvm/NvmRuleManager.cpp:74-94 | The cursor goes the way of the lookup, and stays for an id out of range |
| `RuleStore.NvmRuleManager.GetRuleData` | firmware/libs/nvm/NvmRuleManager.cpp:69-72 | In any order of reads and adds exactly the bytes of the rule, at the cost of none, one or all headers before it |
| `RuleStore.NvmRuleManager.ScanRules` | firmware/libs/TimerDescriptionLanguage/TdlRules.cpp:59-81 | Reading all rules in order hands out exactly the rules, and reads each header once |
| `RuleStore.NvmRuleLoader.GetRule` | firmware/libs/nvm/NvmRuleLoader.cpp:47-56 | The walk from the first rule |
| `RuleStore.NvmRuleLoader.GetNextRule` | firmware/libs/nvm/NvmRuleLoader.cpp:33-37 | One header further |
| `Upload.U16RoundTrip` | firmware/libs/min/encode_decode.c:31-54 | Decoding what was encoded |
| `Upload.HandleUpload` | firmware/libs/min/min_received_cmds.cpp:69-108 | START(n), chunks, END: the list grows by exactly those bytes if they number n and there is room, and otherwise stays |
| `Upload.UploadOverWire` | firmware/libs/min/layer2.c:20-72 | The same from the bytes on the wire, for any receiver state that has seen no header byte |
| `Commands.SaveOverWire` | firmware/libs/min/min_received_cmds.cpp:109-125 | From the bytes on the wire: an upload and then a save leave saved exactly the rules there are, the uploaded one among them if it was stored, and both are answered |
| `Commands.SaveRefusedOverWire` | firmware/libs/min/min_received_cmds.cpp:109-114 | A save in the middle of an upload is refused and saves nothing |
| `Commands.EraseOverWire` | firmware/libs/min/min_received_cmds.cpp:127-140 | Erasing with the two right bytes empties the rules and the saved ones; any other two bytes are refused and change nothing |
| `Commands.EraseHandled` | firmware/libs/min/min_received_cmds.cpp:127-140 | The same for whatever frame with that number arrives: it takes a control byte of at least two and the two right bytes |
| `Commands.StartHandled` | firmware/libs/min/min_received_cmds.cpp:69-75 | An upload announces its length with two bytes, high byte first, and a length of none without them |
| `Commands.StartFrameBytes` | firmware/libs/min/encode_decode.c:31-54 | The frame that announces an upload carries its length high byte first |
| `Commands.Ignored` | firmware/libs/min/layer2.c:32-72 | Frames that carry no command about the rule store, and data that no upload has announced, change neither rules nor upload, and are neither acknowledged nor refused |
| `Commands.EndWithoutStart` | firmware/libs/min/min_received_cmds.cpp:91-108 | The end of an upload that has not begun is refused |
| `Commands.UploadSaveRestart` | firmware/libs/nvm/NvmRuleManager.cpp:18-32 | An upload and a save, byte by byte through receiver and handlers, and then a power-up: the rules found are those stored, the uploaded one among them |
| `Upload.CommandHandler.MinFrameReceived` | firmware/libs/min/layer2.c:32-72 | The handlers with their buffer and the rule store go the way of the value model; the rows on `Commands` say what each command does |
| `Upload.PollRxBytes` | firmware/libs/min/layer2.c:21-29 | Every byte through receiver and handlers: receiver and board end where the value models do |
| `Crc.AddCrc` | bootloader/usart_sam_ba.c:208-222 | The bitwise loop is eight shifts |
| `Crc.CrcIsRemainder` | bootloader/usart_sam_ba.c:208-222 | The CRC of a message is the remainder of its polynomial times x^16 on division by x^16 + x^12 + x^5 + 1 |
| `Crc.CrcIsLinear` | bootloader/usart_sam_ba.c:208-222 | Over messages of any length the CRC is linear in exclusive-or |
| `Crc.OwnCrcGivesZero` | bootloader/usart_sam_ba.c:278-280 | A message followed by two bytes has CRC 0 if and only if they are its own CRC, high byte first |
| `Crc.AdjacentErrorDetected` | bootloader/usart_sam_ba.c:208-222 | Messages that differ in at most two adjacent bytes have the same CRC if and only if they are the same |
| `Xmodem.IncrementCounts` | bootloader/usart_sam_ba.c:377 | Packet numbers count modulo 256 |
| `Xmodem.Transfer` | bootloader/usart_sam_ba.c:319-487 | With every packet acknowledged, sender and receiver both end and the buffer begins with exactly the data, padding dropped, the rest untouched |
| `Xmodem.ReceiveWritesInside` | bootloader/usart_sam_ba.c:228-247 | For any incoming bytes only the first `length` bytes of the buffer are written |
| `Xmodem.FirstReplyIff` | bootloader/usart_sam_ba.c:289-312 | From the bytes of a packet as they arrive: it is acknowledged if and only if its number is the expected one, its complement fits, and data and CRC bytes together have CRC zero; otherwise the reception is over with a CAN |
| `Xmodem.DamagedPacketCancels` | bootloader/usart_sam_ba.c:289-312 | So any change of at most two adjacent bytes of data and CRC ends the reception with a CAN |
| `Xmodem.OtherByteEnds` | bootloader/usart_sam_ba.c:457-481 | Any byte but SOH and EOT ends it without an answer |
| `Xmodem.LineBytes` | bootloader/usart_sam_ba.h:50-55 | The values of the bytes on the line |
| `Xmodem.ResendingIsRightIff` | bootloader/usart_sam_ba.c:370-397 | All data of a given length arrives if and only if no packet had to be sent a second time |
| `Xmodem.SendingIsLine` | bootloader/usart_sam_ba.c:370-397 | Whatever the replies, what is sent is the line of a sender of packets, ... |
| `Xmodem.PacketMade` | bootloader/usart_sam_ba.c:253-283 | What makes the packets of that line |
| `Xmodem.OfPackets` | bootloader/usart_sam_ba.c:253-283 | All of them have 133 bytes |
| `Xmodem.LinePacket` | bootloader/usart_sam_ba.c:370-397 | ... of which the one sent after k replies has a number and a place in the data that go with the acknowledgements among them, and a length that goes with all of them, repeated packets counted |
| `Xmodem.LineEnds` | bootloader/usart_sam_ba.c:392-396 | The line ends with EOT right after the acknowledgement of the last packet |
| `Xmodem.NumberedCounts` | bootloader/usart_sam_ba.c:377 | The number after so many acknowledgements, modulo 256 |
| `Xmodem.FinishesIff` | bootloader/usart_sam_ba.c:370-397 | The sender finishes exactly if as many packets as there are have been acknowledged and one more byte comes |
| `Xmodem.AcceptedPacket` | bootloader/usart_sam_ba.c:370-397 | What is taken in is the data of exactly the packets that were acknowledged, in order |
| `Xmodem.LastPacketIsEmpty` | bootloader/usart_sam_ba.c:265-271 | Once a packet was sent in vain the last one holds nothing but zeros |
| `XmodemPort.Port.PutPacket` | bootloader/usart_sam_ba.c:253-283 | One packet out, one reply in, the counter run down |
| `XmodemPort.Port.PutDataXmd` | bootloader/usart_sam_ba.c:321-403 | The bytes sent are those of the sender model for the replies that came |
| `XmodemPort.StartsAtFirstRequest` | bootloader/usart_sam_ba.c:337-368 | The sender starts at the first NAK or C, unless a q came before |
| `XmodemPort.Port.GetBytes` | bootloader/usart_sam_ba.c:228-247 | Which of the arriving bytes are kept, and their CRC |
| `XmodemPort.Port.GetPacket` | bootloader/usart_sam_ba.c:289-312 | A packet is accepted if and only if numbers and CRC are right; data is stored either way. `Xmodem.FirstReplyIff` says what that means for the bytes that came |
| `XmodemPort.Port.GetDataXmd` | bootloader/usart_sam_ba.c:412-487 | Buffer, replies and outcome are those of the receiver model; nothing behind the announced length is written |

## Left out

- Hardware and I/O: clock chip, pins, I2C, USB, interrupts, power switching and waiting for a busy
  device. They are a clock value, byte sequences, a flash array and a flag.
- Time passing during an update: a step takes no time, and the alarm is set in the second it is for.
- Rules triggered by events, and updates caused by unprocessed events.
- Rules.TdlRule.GetNextStateChangeTime: leaves out the branch for the start of an event.
- Rules.TdlRule.UpdateInitialStartOfCurrentPeriod: leaves out starts taken from events.
- Runners.TdlRuleRunner.UpdateInternalTimeKeepingVariables: leaves out rules triggered by events, and
  notes a given first period after stopping the action, not before, because stopping does not look at
  the period.
- Runners.TdlRuleRunner.HandleWakeUp: leaves out updates that an unprocessed event forces.
- Runners.TdlRuleRunner.MainLoopCallback: is a running runner, without the branch for events.
- Outputs.ChannelOnSchedule: says nothing of the channel of a disabled rule, because that can be left on
  (`LeftOn.ChannelStaysOn`). `LoneRules.ChannelIsSchedule` covers rules that no other switches,
  `PairRuns.PairChannel` those with one parent, and `CalmSteps.ChannelAtCalmSecond` all others at calm
  seconds.
- SwitchingOff.StepLeavesRunningIff: is for a rule with a single parent that has none itself.
  `CalmSteps.CalmStep` covers every graph with a condition that is enough.
- LoneRules.ChannelIsSchedule: requires that a channel which is on while the action does not run is so at
  the start, or the action runs then. From a boot on, `LoneRules.ChannelOnceRun` is what holds.
- PairRuns.PairChannel: is for the runs in which sleeping is polling, like all statements about the channels
  of the sleeping device.
- CalmSteps.CalmStep: its condition is enough but not needed, because in a graph of any shape a rule that
  is switched off can be switched on again in the same step. For a rule and its parent the exact
  outcome is `SwitchingOff.StepOfPair`.
- Rule periods and interval offsets with fields in years or months, because those have no fixed length and
  adding months can go wrong (see above); `Periods.Plus` and `Rules.ToInterval` include them, the rules of
  the scheduler do not, except for the infinite period.
- Rules that switch another rule off while they run; `Network.WellFormed` requires the other way round,
  an acyclic graph and at most four parents.
- Wrap-around of 32-bit time in scheduling: all times are inside a `RuleTime.Window`. With a weekly
  rule that has no given start, the window begins a week after the first time stamp, because on that
  Saturday the start of the week would lie before it.
- The state an activator keeps of its own, which nothing reads.
- Decoding rules, periods, actions and activators from bytes, and restarting the runner after rules
  have been saved.
- TimeLibrary.PlusMonthsIsRightIff: covers results from 2001 to 2133, because near the ends the year is
  capped and the stamp wraps.
- Flash errors, power loss in the middle of a flush, and `erase()`.
- RuleStore.NvmRuleManager.constructor: requires memory that holds as many well-formed rules as its stored
  count says, because on other memory the header walk leaves the region without noticing.
- RuleStore.NvmRuleManager.GetRuleData: requires a cursor that is unused or on a rule, because one left
  over from before a clear misleads it (`RuleLayout.StaleCursorMisleads`).
- RuleStore.NvmRuleManager.ScanRules: hands out the bytes of the rules and does not decode them.
- Upload.HandleUpload: requires what the handlers do not check, that data stays inside the 200-byte
  buffer and that fewer than 255 rules are stored.
- Upload.UploadOverWire: requires the same of the frames on the wire.
- Upload.PollRxBytes: requires the same of every frame that arrives.
- Upload.CommandHandler.MinFrameReceived: leaves out the handlers for clock, report and restart.
- XmodemPort.Port.PutDataXmd: leaves out transfers of length 0, which run without a count, and the error
  flag of the serial port, which nothing sets.
- XmodemPort.Port.GetBytes: leaves out the mode without a count, and that flag.
- XmodemPort.Port.GetPacket: leaves out that flag.
- XmodemPort.Port.GetDataXmd: leaves out transfers of length 0, and that flag.
- Ping, report and clock messages, the ring buffer, BCD, strings of dates, daylight saving, and the
  solar and lunar functions.
