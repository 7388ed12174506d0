/** What holds of every one-shot synchronisation, whatever the planner, the status database and the
    executor do, and whatever the user types. */
module SyncTheorems {
  import opened Wrappers
  import opened Plans
  import opened Prompt
  import opened Counters
  import opened InteractiveResolution
  import opened SyncRuns

  // ---- What is shown is what runs -------------------------------------------------------------

  /** The events since the last plan was made, with it. */
  function Since(events: seq<Event>): seq<Event> {
    if events == [] then []
    else
      var last := |events| - 1;
      (if events[last].PlanMade? then [] else Since(events[..last])) + [events[last]]
  }

  /** A pair whose plan was shown and, if the user is asked, accepted. */
  ghost predicate ShownAndAccepted(w: World, f: Flags, s: seq<Event>, operations: seq<Planned>) {
    && s != [] && s[0].PlanMade? && s[0].plan.Some?
    && operations == Resolved(w, s[0].pair, s[0].plan.value)
    && s == [s[0]] + Display(s[0].pair.name, operations) +
            (if f.interactive then [Asked(Yes)] else [])
  }

  /** What may come right after `s`, the events since the last plan. */
  ghost predicate Justified(w: World, f: Flags, s: seq<Event>, e: Event) {
    match e
    case StatusOpened(_) =>
      && !f.dryRun
      && s != [] && s[0].PlanMade? && s[0].plan.Some?
      && ShownAndAccepted(w, f, s, Resolved(w, s[0].pair, s[0].plan.value))
    case Executed(operations, _) =>
      && !f.dryRun
      && s != [] && s[|s| - 1] == StatusOpened(true)
      && ShownAndAccepted(w, f, s[..|s| - 1], operations)
    case _ => true
  }

  /** A pair's events do not end before everything that has to be done is done. */
  ghost predicate Finished(f: Flags, s: seq<Event>) {
    && s != []
    && match s[|s| - 1]
       case PlanMade(_, plan) => plan.None?
       case Totals(_) => f.dryRun && !f.interactive
       case Asked(answer) => f.interactive && (answer.Yes? ==> f.dryRun)
       case StatusOpened(ok) => !ok
       case Executed(_, _) => true
       case _ => false
  }

  /** The event after number `k`, if any, is for another pair. */
  predicate EndsPair(events: seq<Event>, k: nat)
    requires k < |events|
  {
    k + 1 == |events| || events[k + 1].PlanMade?
  }

  ghost predicate OrderlyAt(w: World, f: Flags, events: seq<Event>, k: nat)
    requires k < |events|
  {
    && Justified(w, f, Since(events[..k]), events[k])
    && (EndsPair(events, k) ==> Finished(f, Since(events[..k + 1])))
    && (events[k].Asked? && !events[k].answer.Yes? ==> EndsPair(events, k))
    && (events[k] == Asked(Quit) ==> k + 1 == |events|)
  }

  ghost predicate Orderly(w: World, f: Flags, events: seq<Event>) {
    forall k | 0 <= k < |events| :: OrderlyAt(w, f, events, k)
  }

  /** The pairs that plans were made for. */
  function PlannedPairs(events: seq<Event>): seq<Pair> {
    if events == [] then []
    else (if events[0].PlanMade? then [events[0].pair] else []) + PlannedPairs(events[1..])
  }

  /** What holds of the events of one pair by themselves, from the making of its plan. */
  ghost predicate PairEvents(w: World, f: Flags, pair: Pair, s: seq<Event>) {
    && s != [] && s[0].PlanMade? && s[0].pair == pair
    && (forall j | 0 < j < |s| :: !s[j].PlanMade? && Justified(w, f, s[..j], s[j]))
    && (forall j | 0 <= j < |s| - 1 :: s[j].Asked? ==> s[j].answer.Yes?)
  }

  predicate Displays(e: Event) {
    e.Heading? || e.Shown? || e.Logged? || e.Totals?
  }

  lemma {:induction false} DisplayEvents(name: string, plan: seq<Planned>)
    ensures forall e | e in Display(name, plan) :: Displays(e)
  {
    LinesAreShown(plan);
  }

  lemma {:induction false} SectionStarts(w: World, f: Flags, made: Event, display: seq<Event>)
    requires made.PlanMade?
    requires forall e | e in display :: Displays(e)
    ensures PairEvents(w, f, made.pair, [made] + display)
    ensures forall e | e in [made] + display :: !e.Asked?
  {
    hide ShownAndAccepted;
    var s := [made] + display;
    assert forall j | 0 < j < |s| :: s[j] == display[j - 1] && s[j] in display;
  }

  lemma {:induction false} SectionGoesOn(w: World, f: Flags, pair: Pair, s: seq<Event>, e: Event)
    requires PairEvents(w, f, pair, s) && !e.PlanMade? && Justified(w, f, s, e)
    requires forall x | x in s :: x.Asked? ==> x.answer.Yes?
    ensures PairEvents(w, f, pair, s + [e])
  {
    var t := s + [e];
    hide Justified;
    assert forall j | 0 < j <= |s| :: t[..j] == s[..j];
    assert s[..|s|] == s;
    assert forall j | 0 <= j < |t| - 1 :: t[j] == s[j] && s[j] in s;
  }

  lemma {:induction false} SectionExecutes(w: World, f: Flags, pair: Pair, before: seq<Event>,
                                           shown: seq<Event>, ops: seq<Planned>)
    requires PairEvents(w, f, pair, shown) && !f.dryRun
    requires ShownAndAccepted(w, f, shown, ops)
    requires forall x | x in shown :: x.Asked? ==> x.answer.Yes?
    ensures var s := shown + Execute(w, pair, before, ops).0;
            PairEvents(w, f, pair, s) && Finished(f, s) && !s[|s| - 1].Asked?
  {
    hide PairEvents;
    var (done, _) := Execute(w, pair, before, ops);
    assert Justified(w, f, shown, done[0]);
    SectionGoesOn(w, f, pair, shown, done[0]);
    if |done| == 1 {
      hide ShownAndAccepted;
      assert done == [done[0]];
    } else {
      SectionCompletes(w, f, pair, shown, ops, done[1]);
      hide ShownAndAccepted, Justified;
      assert shown + done == shown + [StatusOpened(true)] + [done[1]];
    }
  }

  lemma {:induction false} SectionCompletes(w: World, f: Flags, pair: Pair, shown: seq<Event>,
                                            ops: seq<Planned>, executed: Event)
    requires executed.Executed? && executed.operations == ops && !f.dryRun
    requires PairEvents(w, f, pair, shown + [StatusOpened(true)])
    requires ShownAndAccepted(w, f, shown, ops)
    requires forall x | x in shown :: x.Asked? ==> x.answer.Yes?
    ensures PairEvents(w, f, pair, shown + [StatusOpened(true)] + [executed])
  {
    hide PairEvents, ShownAndAccepted;
    var ready := shown + [StatusOpened(true)];
    assert ready[..|ready| - 1] == shown;
    assert Justified(w, f, ready, executed);
    SectionGoesOn(w, f, pair, ready, executed);
  }

  function UpToAnswer(w: World, f: Flags, pair: Pair, plan: seq<Planned>, lines: seq<string>)
    : seq<Event>
  {
    [PlanMade(pair, Some(plan))] + Display(pair.name, Resolved(w, pair, plan)) + Answered(f, lines).2
  }

  lemma {:induction false} PlanShown(w: World, f: Flags, pair: Pair, plan: seq<Planned>,
                                     lines: seq<string>)
    ensures var s := UpToAnswer(w, f, pair, plan, lines);
            var (answer, _, _) := Answered(f, lines);
            && PairEvents(w, f, pair, s)
            && (answer.Yes? && !f.dryRun ==> ShownAndAccepted(w, f, s, Resolved(w, pair, plan)))
            && (answer.Yes? ==> forall x | x in s :: x.Asked? ==> x.answer.Yes?)
            && (!answer.Yes? || f.dryRun ==> Finished(f, s))
            && (answer.Quit? <==> s[|s| - 1] == Asked(Quit))
  {
    hide Ask, Resolved, Display;
    var ops := Resolved(w, pair, plan);
    var display := Display(pair.name, ops);
    var made := PlanMade(pair, Some(plan));
    DisplayEvents(pair.name, ops);
    DisplayLast(pair.name, ops);
    SectionStarts(w, f, made, display);
    hide PairEvents;
    if f.interactive {
      SectionGoesOn(w, f, pair, [made] + display, Asked(Answered(f, lines).0));
    } else {
      assert [made] + display + [] == [made] + display;
    }
  }

  lemma {:induction false} SectionShape(w: World, f: Flags, pair: Pair, before: seq<Event>,
                                        lines: seq<string>)
    ensures var section := SectionOf(w, f, pair, before, lines);
            && PairEvents(w, f, pair, section.events)
            && Finished(f, section.events)
            && (section.end.Stop? <==> section.events[|section.events| - 1] == Asked(Quit))
  {
    hide Ask, Resolved, Display, PairEvents, ShownAndAccepted, Execute, Answered;
    match w.planner(before, pair)
    case None =>
      SectionStarts(w, f, PlanMade(pair, None), []);
      assert [PlanMade(pair, None)] + [] == [PlanMade(pair, None)];
    case Some(plan) =>
      PlanShown(w, f, pair, plan, lines);
      var shown := UpToAnswer(w, f, pair, plan, lines);
      if Answered(f, lines).0.Yes? && !f.dryRun {
        SectionExecutes(w, f, pair, before + shown, shown, Resolved(w, pair, plan));
        ExecuteEnds(w, pair, before + shown, Resolved(w, pair, plan));
      }
      hide Finished;
  }

  lemma {:induction false} ExecuteEnds(w: World, pair: Pair, before: seq<Event>, plan: seq<Planned>)
    ensures !Execute(w, pair, before, plan).1.Stop?
  {
  }

  lemma {:induction false} SinceAppend(a: seq<Event>, b: seq<Event>)
    requires b != [] && b[0].PlanMade?
    ensures Since(a + b) == Since(b)
    decreases |b|
  {
    var n, ab := |b| - 1, a + b;
    assert ab[|ab| - 1] == b[n];
    if !b[n].PlanMade? {
      assert ab[..|ab| - 1] == a + b[..n];
      SinceAppend(a, b[..n]);
      assert Since(ab) == Since(a + b[..n]) + [b[n]];
    }
  }

  lemma {:induction false} SinceSection(s: seq<Event>)
    requires s != [] && s[0].PlanMade?
    requires forall j | 0 < j < |s| :: !s[j].PlanMade?
    ensures Since(s) == s
    decreases |s|
  {
    if |s| == 1 {
      assert s == [s[0]];
    } else {
      SinceSection(s[..|s| - 1]);
    }
  }

  lemma {:induction false} SinceInPair(w: World, f: Flags, pair: Pair, s: seq<Event>, k: nat)
    requires PairEvents(w, f, pair, s) && k < |s|
    ensures Since(s[..k + 1]) == s[..k + 1]
    ensures Justified(w, f, Since(s[..k]), s[k])
  {
    hide Justified;
    SinceSection(s[..k + 1]);
    if k > 0 {
      SinceSection(s[..k]);
    } else {
      PlansAreJustified(w, f, Since(s[..k]), s[0]);
    }
  }

  lemma {:induction false} OrderlyInFirst(w: World, f: Flags, pair: Pair, s: seq<Event>,
                                          rest: seq<Event>, k: nat)
    requires PairEvents(w, f, pair, s) && Finished(f, s)
    requires rest != [] ==> rest[0].PlanMade?
    requires s[|s| - 1] == Asked(Quit) ==> rest == []
    requires k < |s|
    ensures OrderlyAt(w, f, s + rest, k)
  {
    hide Finished, Since, Justified;
    SinceInPair(w, f, pair, s, k);
    var all := s + rest;
    assert all[..k] == s[..k] && all[..k + 1] == s[..k + 1] && all[k] == s[k];
    if k + 1 < |s| {
      assert all[k + 1] == s[k + 1] && !EndsPair(all, k);
    } else {
      assert s[..k + 1] == s;
      assert EndsPair(all, k);
    }
  }

  lemma {:induction false} OrderlyInRest(w: World, f: Flags, s: seq<Event>, rest: seq<Event>,
                                         j: nat)
    requires j < |rest| && OrderlyAt(w, f, rest, j) && rest[0].PlanMade?
    ensures OrderlyAt(w, f, s + rest, |s| + j)
  {
    hide Finished, Justified, Since;
    var k := |s| + j;
    assert EndsPair(s + rest, k) == EndsPair(rest, j);
    assert (s + rest)[..k] == s + rest[..j] && (s + rest)[..k + 1] == s + rest[..j + 1];
    SinceAppend(s, rest[..j + 1]);
    if j > 0 {
      SinceAppend(s, rest[..j]);
    } else {
      PlansAreJustified(w, f, Since(s + rest[..j]), rest[0]);
    }
  }

  lemma {:induction false} PlansAreJustified(w: World, f: Flags, s: seq<Event>, e: Event)
    requires e.PlanMade?
    ensures Justified(w, f, s, e)
  {
  }

  /** One pair's events, then orderly events of others, if it did not quit. */
  lemma {:induction false} OrderlyAppend(w: World, f: Flags, pair: Pair, s: seq<Event>,
                                         rest: seq<Event>)
    requires PairEvents(w, f, pair, s) && Finished(f, s)
    requires Orderly(w, f, rest) && (rest != [] ==> rest[0].PlanMade?)
    requires s[|s| - 1] == Asked(Quit) ==> rest == []
    ensures Orderly(w, f, s + rest)
  {
    hide PairEvents, Finished, OrderlyAt;
    forall k | 0 <= k < |s + rest|
      ensures OrderlyAt(w, f, s + rest, k)
    {
      if k < |s| {
        OrderlyInFirst(w, f, pair, s, rest, k);
      } else {
        OrderlyInRest(w, f, s, rest, k - |s|);
      }
    }
  }

  lemma {:induction false} PlannedAppend(a: seq<Event>, b: seq<Event>)
    ensures PlannedPairs(a + b) == PlannedPairs(a) + PlannedPairs(b)
    decreases |a|
  {
    if a == [] {
      assert a + b == b;
    } else {
      assert (a + b)[0] == a[0] && (a + b)[1..] == a[1..] + b;
      PlannedAppend(a[1..], b);
    }
  }

  lemma {:induction false} NoPlans(s: seq<Event>)
    requires forall e | e in s :: !e.PlanMade?
    ensures PlannedPairs(s) == []
  {
    if s != [] {
      NoPlans(s[1..]);
    }
  }

  lemma {:induction false} OnePlan(w: World, f: Flags, pair: Pair, s: seq<Event>)
    requires PairEvents(w, f, pair, s)
    ensures s != [] && s[0].PlanMade? && PlannedPairs(s) == [pair]
  {
    hide Justified;
    NoPlans(s[1..]);
  }

  /** What is shown is what runs. In every run, the status database is only written to, and the
      executor only started, for a plan that was just shown in full and, if the user is asked,
      accepted; the executor gets exactly the operations shown, in that order. A dry run does
      neither, a No ends the pair and a Quit the run; nothing else ends a pair before its plan is
      executed or has failed. Plans are made for the pairs in order, each once, and for all of them
      unless the user quits. */
  lemma {:induction false} WhatIsShownIsWhatRuns(w: World, f: Flags, pairs: seq<Pair>,
                                                 before: seq<Event>, lines: seq<string>)
    ensures var events := EventsOf(w, f, pairs, before, lines);
            && Orderly(w, f, events)
            && (events != [] ==> events[0].PlanMade?)
            && |PlannedPairs(events)| <= |pairs|
            && PlannedPairs(events) == pairs[..|PlannedPairs(events)|]
            && (|PlannedPairs(events)| < |pairs| ==>
                  events != [] && events[|events| - 1] == Asked(Quit))
    decreases |pairs|
  {
    hide SectionOf, Orderly, PairEvents, Finished, PlannedPairs;
    if pairs == [] {
      NothingIsOrderly(w, f);
    } else {
      var section := SectionOf(w, f, pairs[0], before, lines);
      var s := section.events;
      SectionShape(w, f, pairs[0], before, lines);
      OnePlan(w, f, pairs[0], s);
      assert s + [] == s;
      if section.end.Stop? {
        NothingIsOrderly(w, f);
        OrderlyAppend(w, f, pairs[0], s, []);
      } else {
        var rest := EventsOf(w, f, pairs[1..], before + s, section.lines);
        WhatIsShownIsWhatRuns(w, f, pairs[1..], before + s, section.lines);
        OrderlyAppend(w, f, pairs[0], s, rest);
        PlannedAppend(s, rest);
        var n := |PlannedPairs(rest)|;
        assert pairs[..n + 1] == [pairs[0]] + pairs[1..][..n];
      }
    }
  }

  lemma {:induction false} NothingIsOrderly(w: World, f: Flags)
    ensures Orderly(w, f, []) && PlannedPairs([]) == []
  {
  }

  /** A dry run writes nothing. */
  lemma {:induction false} DryRunWritesNothing(w: World, f: Flags, pairs: seq<Pair>,
                                               lines: seq<string>)
    requires f.dryRun
    ensures forall e | e in EventsOf(w, f, pairs, [], lines) :: !e.StatusOpened? && !e.Executed?
  {
    WhatIsShownIsWhatRuns(w, f, pairs, [], lines);
    var events := EventsOf(w, f, pairs, [], lines);
    forall k | 0 <= k < |events|
      ensures !events[k].StatusOpened? && !events[k].Executed?
    {
      assert OrderlyAt(w, f, events, k);
    }
  }

  /** The totals printed under a plan count the lines printed above them, logged errors aside. */
  lemma {:induction false} TotalsCountLines(plan: seq<Planned>)
    ensures |Lines(plan)| == Collections(plan) + Items(plan) + Properties(plan) + Failures(plan)
    ensures ConflictCount(plan) <= Items(plan) + Properties(plan)
  {
    if plan != [] {
      TotalsCountLines(plan[1..]);
    }
  }

  /** Errors in a plan, which are logged; no total counts them. */
  function Failures(plan: seq<Planned>): nat {
    if plan == [] then 0 else (if plan[0].Err? then 1 else 0) + Failures(plan[1..])
  }

  // ---- Error accounting -----------------------------------------------------------------------

  function Reported(events: seq<Event>): nat {
    if events == [] then 0
    else (if events[0].Executed? then events[0].execution.errors else 0) + Reported(events[1..])
  }

  /** Pairs without a plan, without a status database to write, or whose execution failed. */
  function FailedPairs(w: World, f: Flags, pairs: seq<Pair>, before: seq<Event>, lines: seq<string>)
    : nat
    decreases |pairs|
  {
    if pairs == [] then 0
    else
      var section := SectionOf(w, f, pairs[0], before, lines);
      (if section.end.PairFailed? then 1 else 0) +
      if section.end.Stop? then 0
      else FailedPairs(w, f, pairs[1..], before + section.events, section.lines)
  }

  lemma {:induction false} ReportedAppend(a: seq<Event>, b: seq<Event>)
    ensures Reported(a + b) == Reported(a) + Reported(b)
    decreases |a|
  {
    if a == [] {
      assert a + b == b;
    } else {
      assert (a + b)[1..] == a[1..] + b;
      ReportedAppend(a[1..], b);
    }
  }

  lemma {:induction false} OnlyTheLastReports(w: World, f: Flags, s: seq<Event>)
    requires s != [] && forall j | 0 <= j < |s| - 1 :: !s[j].Executed?
    ensures Reported(s) == if s[|s| - 1].Executed? then s[|s| - 1].execution.errors else 0
    decreases |s|
  {
    if |s| > 1 {
      OnlyTheLastReports(w, f, s[1..]);
    }
  }

  /** The errors counted are those the executor reported and one for each failed pair, also when the
      user quits after some. */
  lemma {:induction false} ErrorsAreReportedOrFailed(w: World, f: Flags, pairs: seq<Pair>,
                                                     before: seq<Event>, lines: seq<string>)
    ensures var events := EventsOf(w, f, pairs, before, lines);
            Errors(events) == Reported(events) + FailedPairs(w, f, pairs, before, lines)
    decreases |pairs|
  {
    hide SectionOf;
    if pairs != [] {
      var section := SectionOf(w, f, pairs[0], before, lines);
      var s := section.events;
      SectionErrors(w, f, pairs[0], before, lines);
      ExecutedLast(w, f, pairs[0], before, lines);
      OnlyTheLastReports(w, f, s);
      if !section.end.Stop? {
        var rest := EventsOf(w, f, pairs[1..], before + s, section.lines);
        ErrorsAreReportedOrFailed(w, f, pairs[1..], before + s, section.lines);
        ErrorsAppend(s, rest);
        ReportedAppend(s, rest);
      }
    }
  }

  lemma {:induction false} ExecutedLast(w: World, f: Flags, pair: Pair, before: seq<Event>,
                                        lines: seq<string>)
    ensures var s := SectionOf(w, f, pair, before, lines).events;
            forall j | 0 <= j < |s| - 1 :: !s[j].Executed?
  {
    hide Ask, Resolved, Display;
    var plan := w.planner(before, pair);
    if plan.Some? {
      DisplayEvents(pair.name, Resolved(w, pair, plan.value));
      var display := Display(pair.name, Resolved(w, pair, plan.value));
      var s := SectionOf(w, f, pair, before, lines).events;
      assert forall j | 0 < j <= |display| :: s[j] == display[j - 1] && s[j] in display;
    }
  }

  /** A synchronisation with exactly 2^32 errors succeeds. */
  lemma {:induction false} FullTurnSucceeds() returns (w: World, pairs: seq<Pair>)
    ensures var events := EventsOf(w, Flags(false, false), pairs, [], []);
            Errors(events) == U32 && Errors(events) % U32 == 0
  {
    w := World((_, _) => Some([]), (_, plan) => plan, (_, _) => true,
               (_, _, _) => Execution(U32, Completed));
    var f, pair := Flags(false, false), Pair("pair", None);
    pairs := [pair];
    SectionErrors(w, f, pair, [], []);
    var section := SectionOf(w, f, pair, [], []);
    assert section.events[|section.events| - 1] == Executed([], Execution(U32, Completed));
    assert section.end.GoOn?;
    hide SectionOf, Errors;
    assert EventsOf(w, f, pairs[1..], [] + section.events, section.lines) == [];
    assert EventsOf(w, f, pairs, [], []) == section.events + [];
    assert section.events + [] == section.events;
  }
}
