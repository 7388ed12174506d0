/** What the history of a synchronisation shows, event by event. */
module SyncHistories {
  import opened Wrappers
  import opened Plans
  import opened Prompt
  import opened InteractiveResolution
  import opened SyncRuns
  import opened SyncTheorems

  // ---- A printed plan -------------------------------------------------------------------------

  /** The plan without the flushing of stale mappings. */
  function Visible(plan: seq<Planned>): seq<Planned> {
    if plan == [] then []
    else
      (if plan[0].Ok? && plan[0].value.FlushStaleMappings? then [] else [plan[0]]) +
      Visible(plan[1..])
  }

  lemma {:induction false} VisibleApart(p: seq<Planned>, q: seq<Planned>)
    ensures Visible(p + q) == Visible(p) + Visible(q)
    decreases |p|
  {
    if p == [] {
      assert p + q == q;
    } else {
      assert (p + q)[0] == p[0] && (p + q)[1..] == p[1..] + q;
      VisibleApart(p[1..], q);
    }
  }

  lemma {:induction false} VisibleInOrder(p: seq<Planned>, q: seq<Planned>, x: Planned)
    ensures Visible(p + q) == Visible(p) + Visible(q)
    ensures Visible([x]) == if x.Ok? && x.value.FlushStaleMappings? then [] else [x]
  {
    VisibleApart(p, q);
    assert [x][1..] == [];
  }

  /** The event shows exactly this operation, or logs exactly this error. */
  predicate Shows(e: Event, p: Planned) {
    || (p.Ok? && p.value.Collection? && e == Shown(CollectionLine(p.value.description)))
    || (p.Ok? && p.value.Item? && e == Shown(ItemLine(p.value.itemOp)))
    || (p.Ok? && p.value.Property? && e == Shown(PropertyLine(p.value.propertyOp)))
    || (p.Err? && e == Logged(p.error))
  }

  /** Each visible operation is shown by a line of its own, in order, and nothing else is. */
  lemma {:induction false} LinesExactly(plan: seq<Planned>)
    ensures |Lines(plan)| == |Visible(plan)|
    ensures forall i | 0 <= i < |Visible(plan)| :: Shows(Lines(plan)[i], Visible(plan)[i])
  {
    if plan != [] {
      LinesExactly(plan[1..]);
      hide Shows;
      assert |LineOf(plan[0])| <= 1;
      assert LineOf(plan[0]) != [] ==> Shows(LineOf(plan[0])[0], plan[0]) by {
        LineShows(plan[0]);
      }
    }
  }

  lemma {:induction false} LineShows(p: Planned)
    ensures LineOf(p) != [] ==> Shows(LineOf(p)[0], p)
  {
  }

  /** So what is visible of a plan can be told from its lines. */
  lemma {:induction false} LinesTellPlans(p: seq<Planned>, q: seq<Planned>)
    requires Lines(p) == Lines(q)
    ensures Visible(p) == Visible(q)
  {
    LinesExactly(p);
    LinesExactly(q);
    forall i | 0 <= i < |Visible(p)| ensures Visible(p)[i] == Visible(q)[i] {
      assert Shows(Lines(p)[i], Visible(p)[i]) && Shows(Lines(q)[i], Visible(q)[i]);
    }
  }

  predicate IsCollection(p: Planned) {
    p.Ok? && p.value.Collection?
  }

  predicate IsItem(p: Planned) {
    p.Ok? && p.value.Item?
  }

  predicate IsProperty(p: Planned) {
    p.Ok? && p.value.Property?
  }

  predicate Conflicts(p: Planned) {
    p.Ok? && p.value.IsConflict()
  }

  /** How many of the plan's entries, from `k` on, are of this kind: the number of their indices. */
  function Number(plan: seq<Planned>, k: nat, kind: Planned -> bool): nat {
    |set i | k <= i < |plan| && kind(plan[i])|
  }

  /** All stale mappings that the plan flushes. */
  function StaleUids(plan: seq<Planned>): seq<string> {
    if plan == [] then []
    else
      (if plan[0].Ok? && plan[0].value.FlushStaleMappings? then plan[0].value.staleUids else []) +
      StaleUids(plan[1..])
  }

  lemma {:induction false} OneMore(plan: seq<Planned>, k: nat, kind: Planned -> bool)
    requires k < |plan|
    ensures Number(plan, k, kind) == Number(plan, k + 1, kind) + if kind(plan[k]) then 1 else 0
  {
    var later := set i | k + 1 <= i < |plan| && kind(plan[i]);
    assert (set i | k <= i < |plan| && kind(plan[i])) == later + if kind(plan[k]) then {k} else {};
  }

  lemma {:induction false} NoneLeft(plan: seq<Planned>, kind: Planned -> bool)
    ensures Number(plan, |plan|, kind) == 0
  {
  }

  lemma {:induction false} TotalsFrom(plan: seq<Planned>, k: nat)
    requires k <= |plan|
    ensures SummaryOf(plan[k..]) ==
            Summary(Number(plan, k, IsCollection), Number(plan, k, IsItem),
                    Number(plan, k, IsProperty), Number(plan, k, Conflicts), |StaleUids(plan[k..])|)
    decreases |plan| - k
  {
    hide Number;
    if k < |plan| {
      TotalsFrom(plan, k + 1);
      PlanHead(plan, k);
      OneMore(plan, k, IsCollection);
      OneMore(plan, k, IsItem);
      OneMore(plan, k, IsProperty);
      OneMore(plan, k, Conflicts);
      assert plan[k..][1..] == plan[k + 1..];
      hide SummaryOf;
    } else {
      EmptyPlan(plan[k..]);
      NoneLeft(plan, IsCollection);
      NoneLeft(plan, IsItem);
      NoneLeft(plan, IsProperty);
      NoneLeft(plan, Conflicts);
    }
  }

  /** The totals are the numbers of collection, item and property operations, of conflicts, and of stale
      mappings. */
  lemma {:induction false} TotalsExactly(plan: seq<Planned>)
    ensures SummaryOf(plan) ==
            Summary(Number(plan, 0, IsCollection), Number(plan, 0, IsItem),
                    Number(plan, 0, IsProperty), Number(plan, 0, Conflicts), |StaleUids(plan)|)
  {
    TotalsFrom(plan, 0);
    assert plan[0..] == plan;
  }

  /** From `k` on, the events are the display of this plan: its name, a line for each visible operation,
      and the totals. */
  ghost predicate Displayed(events: seq<Event>, k: nat, name: string, plan: seq<Planned>) {
    var v := Visible(plan);
    && k + |v| + 2 <= |events|
    && events[k] == Heading(name)
    && (forall i | 0 <= i < |v| :: Shows(events[k + 1 + i], v[i]))
    && events[k + 1 + |v|] ==
       Totals(Summary(Number(plan, 0, IsCollection), Number(plan, 0, IsItem),
                      Number(plan, 0, IsProperty), Number(plan, 0, Conflicts), |StaleUids(plan)|))
  }

  lemma {:induction false} DisplayExactly(name: string, plan: seq<Planned>)
    ensures Displayed(Display(name, plan), 0, name, plan)
    ensures |Display(name, plan)| == |Visible(plan)| + 2
  {
    LinesExactly(plan);
    TotalsExactly(plan);
    hide Shows, Lines, Visible, SummaryOf, Number, StaleUids;
  }

  // ---- What was executed was shown ------------------------------------------------------------

  /** The operations for a plan: those that keep a side in conflicts, if that is the pair's policy. */
  function OperationsOf(w: World, pair: Pair, plan: seq<Planned>): seq<Planned> {
    match pair.policy
    case Some(KeepSideA) => w.keepSide(KeepSideA, plan)
    case Some(KeepSideB) => w.keepSide(KeepSideB, plan)
    case Some(Command) => plan
    case None => plan
  }

  /** Event `k` executes the operations for the plan made by event `j`; in between there is their display,
      the user's yes if one is asked, and the opening of the status database, and nothing else. */
  ghost predicate ShownBefore(w: World, f: Flags, events: seq<Event>, j: nat, k: nat)
    requires k < |events|
  {
    && j < k && events[j].PlanMade? && events[j].plan.Some? && events[k].Executed?
    && var (pair, ops) := (events[j].pair, events[k].operations);
       var m := |Visible(ops)|;
    && ops == OperationsOf(w, pair, events[j].plan.value)
    && Displayed(events, j + 1, pair.name, ops)
    && k == j + m + 4 + (if f.interactive then 1 else 0)
    && (f.interactive ==> events[j + m + 3] == Asked(Yes))
    && events[k - 1] == StatusOpened(true)
    && !f.dryRun
  }

  /** What is since the last plan comes last. */
  lemma {:induction false} SinceSuffix(events: seq<Event>) returns (before: seq<Event>)
    ensures events == before + Since(events)
    decreases |events|
  {
    if events == [] {
      before := [];
    } else {
      var n := |events| - 1;
      assert events == events[..n] + [events[n]];
      if events[n].PlanMade? {
        before := events[..n];
      } else {
        before := SinceSuffix(events[..n]);
      }
    }
  }

  lemma {:induction false} ResolvedIs(w: World, pair: Pair, plan: seq<Planned>)
    ensures Resolved(w, pair, plan) == OperationsOf(w, pair, plan)
  {
  }

  lemma {:induction false} DisplayedLater(events: seq<Event>, k: nat, s: seq<Event>, name: string,
                                          plan: seq<Planned>)
    requires Displayed(s, 0, name, plan) && k + |s| <= |events| && events[k..k + |s|] == s
    ensures Displayed(events, k, name, plan)
  {
    hide Shows, Visible, Number, StaleUids;
    var v, same := Visible(plan), events[k..k + |s|];
    assert same[0] == events[k] && same[1 + |v|] == events[k + (1 + |v|)];
    forall i | 0 <= i < |v| ensures Shows(events[k + 1 + i], v[i]) {
      assert Shows(s[0 + 1 + i], v[i]) && same[1 + i] == events[k + (1 + i)];
    }
  }

  /** Where the parts of a section are among the events. */
  lemma {:induction false} Located(events: seq<Event>, j: nat, k: nat, made: Event,
                                   display: seq<Event>, asked: seq<Event>, opening: Event)
    requires j <= k <= |events|
    requires events[j..k] == [made] + display + asked + [opening]
    ensures k == j + |display| + |asked| + 2
    ensures events[j] == made && events[k - 1] == opening
    ensures events[j + 1..j + 1 + |display|] == display
    ensures asked != [] ==> events[j + 1 + |display|] == asked[0]
  {
    var s := [made] + display + asked + [opening];
    assert forall i | 0 <= i < |s| :: s[i] == events[j + i];
    assert forall i | 0 <= i < |display| :: events[j + 1 + i] == s[1 + i] == display[i];
  }

  lemma {:induction false} JustifiedSection(w: World, f: Flags, s: seq<Event>, e: Event)
    requires e.Executed? && Justified(w, f, s, e)
    ensures !f.dryRun && s != [] && s[0].PlanMade? && s[0].plan.Some?
    ensures e.operations == OperationsOf(w, s[0].pair, s[0].plan.value)
    ensures s == [s[0]] + Display(s[0].pair.name, e.operations) +
                 (if f.interactive then [Asked(Yes)] else []) + [StatusOpened(true)]
  {
    var n := |s| - 1;
    ResolvedIs(w, s[..n][0].pair, s[..n][0].plan.value);
    hide Resolved, OperationsOf, Display;
    assert s == s[..n] + [s[n]] && s[..n][0] == s[0];
  }

  lemma {:induction false} JustifiedShown(w: World, f: Flags, events: seq<Event>, k: nat)
    returns (j: nat)
    requires k < |events| && events[k].Executed?
    requires Justified(w, f, Since(events[..k]), events[k])
    ensures ShownBefore(w, f, events, j, k)
  {
    hide Since, Justified, OperationsOf, Display, Displayed;
    var s, ops := Since(events[..k]), events[k].operations;
    var past := SinceSuffix(events[..k]);
    JustifiedSection(w, f, s, events[k]);
    j := |past|;
    assert events[..k] == past + s;
    assert events[j..k] == events[..k][j..] == s;
    var name := s[0].pair.name;
    var display := Display(name, ops);
    Located(events, j, k, s[0], display, if f.interactive then [Asked(Yes)] else [],
            StatusOpened(true));
    DisplayExactly(name, ops);
    DisplayedLater(events, j + 1, display, name, ops);
  }

  /** In every run, whatever is executed was shown in full just before, line by line, and accepted if
      the user is asked; and it is the plan, or what keeping a side makes of it. */
  lemma {:induction false} ExecutedWasShown(w: World, f: Flags, pairs: seq<Pair>,
                                            before: seq<Event>, lines: seq<string>, k: nat)
    requires k < |EventsOf(w, f, pairs, before, lines)|
    requires EventsOf(w, f, pairs, before, lines)[k].Executed?
    ensures exists j :: ShownBefore(w, f, EventsOf(w, f, pairs, before, lines), j, k)
  {
    var events := EventsOf(w, f, pairs, before, lines);
    WhatIsShownIsWhatRuns(w, f, pairs, before, lines);
    assert OrderlyAt(w, f, events, k);
    hide EventsOf, Justified, ShownBefore;
    var j := JustifiedShown(w, f, events, k);
  }

  // ---- The events are what the world and the user said ----------------------------------------

  /** Event `k` is what the planner, the status database or the executor gave, after all that had
      happened before, for the pair whose turn it was. */
  ghost predicate RealAt(w: World, before: seq<Event>, events: seq<Event>, k: nat)
    requires k < |events|
  {
    var past, s := before + events[..k], Since(events[..k]);
    match events[k]
    case PlanMade(pair, plan) => plan == w.planner(past, pair)
    case StatusOpened(ok) => s != [] && s[0].PlanMade? && ok == w.status(past, s[0].pair)
    case Executed(ops, run) =>
      s != [] && s[0].PlanMade? && run == w.executor(past, s[0].pair, ops)
    case _ => true
  }

  /** The events of one section, by themselves. */
  ghost predicate RealIn(w: World, pair: Pair, before: seq<Event>, s: seq<Event>, k: nat)
    requires k < |s|
  {
    match s[k]
    case PlanMade(p, plan) => p == pair && plan == w.planner(before + s[..k], pair)
    case StatusOpened(ok) => ok == w.status(before + s[..k], pair)
    case Executed(ops, run) => run == w.executor(before + s[..k], pair, ops)
    case _ => true
  }

  lemma {:induction false} RealMore(w: World, pair: Pair, before: seq<Event>, s: seq<Event>,
                                    more: seq<Event>)
    requires forall k | 0 <= k < |s| :: RealIn(w, pair, before, s, k)
    requires forall k | 0 <= k < |more| :: RealIn(w, pair, before + s, more, k)
    ensures forall k | 0 <= k < |s + more| :: RealIn(w, pair, before, s + more, k)
  {
    forall k | 0 <= k < |s + more| ensures RealIn(w, pair, before, s + more, k) {
      if k < |s| {
        assert (s + more)[..k] == s[..k] && RealIn(w, pair, before, s, k);
      } else {
        assert before + (s + more)[..k] == before + s + more[..k - |s|];
        assert RealIn(w, pair, before + s, more, k - |s|);
      }
    }
  }

  lemma {:induction false} SectionIsReal(w: World, f: Flags, pair: Pair, before: seq<Event>,
                                         lines: seq<string>)
    ensures var s := SectionOf(w, f, pair, before, lines).events;
            forall k | 0 <= k < |s| :: RealIn(w, pair, before, s, k)
  {
    hide Ask, Resolved, Display, Answered;
    var plan := w.planner(before, pair);
    var made := [PlanMade(pair, plan)];
    assert before + made[..0] == before;
    if plan.Some? {
      var ops := Resolved(w, pair, plan.value);
      var display, asked := Display(pair.name, ops), Answered(f, lines).2;
      DisplayEvents(pair.name, ops);
      AskedOnly(f, lines);
      var shown := made + display + asked;
      assert made + (display + asked) == shown;
      forall k | 0 <= k < |display + asked|
        ensures RealIn(w, pair, before + made, display + asked, k)
      {
        assert (display + asked)[k] in display || (display + asked)[k] in asked;
      }
      RealMore(w, pair, before, made, display + asked);
      var done := Execute(w, pair, before + shown, ops).0;
      ExecuteIsReal(w, pair, before + shown, ops);
      hide RealIn, Execute;
      RealMore(w, pair, before, shown, done);
    }
  }

  lemma {:induction false} AskedOnly(f: Flags, lines: seq<string>)
    ensures forall e | e in Answered(f, lines).2 :: e.Asked?
  {
  }

  lemma {:induction false} ExecuteIsReal(w: World, pair: Pair, before: seq<Event>,
                                         plan: seq<Planned>)
    ensures var done := Execute(w, pair, before, plan).0;
            forall k | 0 <= k < |done| :: RealIn(w, pair, before, done, k)
  {
    var done := Execute(w, pair, before, plan).0;
    assert before + done[..0] == before;
    if |done| == 2 {
      assert done[..1] == [StatusOpened(true)];
    }
  }

  /** In every run, plans, status databases and executions are what the world gave, each asked after all
      that had happened before it and for the pair whose turn it was. */
  lemma {:induction false} EventsAreReal(w: World, f: Flags, pairs: seq<Pair>, before: seq<Event>,
                                         lines: seq<string>)
    ensures var events := EventsOf(w, f, pairs, before, lines);
            forall k | 0 <= k < |events| :: RealAt(w, before, events, k)
    decreases |pairs|
  {
    hide SectionOf, RealAt;
    if pairs != [] {
      var section := SectionOf(w, f, pairs[0], before, lines);
      var s := section.events;
      SectionIsReal(w, f, pairs[0], before, lines);
      SectionShape(w, f, pairs[0], before, lines);
      var rest := if section.end.Stop? then []
                  else EventsOf(w, f, pairs[1..], before + s, section.lines);
      if !section.end.Stop? {
        EventsAreReal(w, f, pairs[1..], before + s, section.lines);
        WhatIsShownIsWhatRuns(w, f, pairs[1..], before + s, section.lines);
      }
      assert s + [] == s;
      assert EventsOf(w, f, pairs, before, lines) == s + rest;
      hide EventsOf, RealIn, PairEvents;
      forall k | 0 <= k < |s + rest| ensures RealAt(w, before, s + rest, k) {
        if k < |s| {
          RealFirst(w, f, pairs[0], before, s, rest, k);
        } else {
          RealRest(w, before, s, rest, k - |s|);
        }
      }
    }
  }

  lemma {:induction false} RealFirst(w: World, f: Flags, pair: Pair, before: seq<Event>,
                                     s: seq<Event>, rest: seq<Event>, k: nat)
    requires PairEvents(w, f, pair, s) && k < |s| && RealIn(w, pair, before, s, k)
    ensures RealAt(w, before, s + rest, k)
  {
    hide Justified, Since;
    assert (s + rest)[..k] == s[..k];
    if k > 0 {
      SinceSection(s[..k]);
    }
  }

  lemma {:induction false} RealRest(w: World, before: seq<Event>, s: seq<Event>,
                                    rest: seq<Event>, k: nat)
    requires k < |rest| && rest[0].PlanMade? && RealAt(w, before + s, rest, k)
    ensures RealAt(w, before, s + rest, |s| + k)
  {
    hide Since;
    assert (s + rest)[..|s| + k] == s + rest[..k];
    assert before + (s + rest[..k]) == before + s + rest[..k];
    if k > 0 {
      SinceAppend(s, rest[..k]);
    }
  }

  /** The answers, in order. */
  function AnswersIn(events: seq<Event>): seq<YesNoQuit> {
    if events == [] then []
    else (if events[0].Asked? then [events[0].answer] else []) + AnswersIn(events[1..])
  }

  /** The first `n` answers that the lines give. */
  function AnswersTo(lines: seq<string>, n: nat): seq<YesNoQuit>
    decreases n
  {
    if n == 0 then [] else [Ask(lines).0] + AnswersTo(Ask(lines).1, n - 1)
  }

  lemma {:induction false} AnswersAppend(a: seq<Event>, b: seq<Event>)
    ensures AnswersIn(a + b) == AnswersIn(a) + AnswersIn(b)
    decreases |a|
  {
    if a == [] {
      assert a + b == b;
    } else {
      assert (a + b)[0] == a[0] && (a + b)[1..] == a[1..] + b;
      AnswersAppend(a[1..], b);
    }
  }

  lemma {:induction false} NotAsked(s: seq<Event>)
    requires forall e | e in s :: !e.Asked?
    ensures AnswersIn(s) == []
  {
    if s != [] {
      NotAsked(s[1..]);
    }
  }

  lemma {:induction false} SectionAnswers(w: World, f: Flags, pair: Pair, before: seq<Event>,
                                          lines: seq<string>)
    ensures var section := SectionOf(w, f, pair, before, lines);
            if f.interactive && w.planner(before, pair).Some? then
              AnswersIn(section.events) == [Ask(lines).0] && section.lines == Ask(lines).1
            else AnswersIn(section.events) == [] && section.lines == lines
  {
    hide Ask, Resolved, Display, AnswersIn;
    var plan := w.planner(before, pair);
    var made := [PlanMade(pair, plan)];
    NotAsked(made);
    if plan.Some? {
      var ops := Resolved(w, pair, plan.value);
      var display, asked := Display(pair.name, ops), Answered(f, lines).2;
      DisplayEvents(pair.name, ops);
      NotAsked(display);
      AnswersAppend(made, display);
      AnswersAppend(made + display, asked);
      AskedAnswers(f, lines);
      var shown := made + display + asked;
      var done := Execute(w, pair, before + shown, ops).0;
      NotAsked(done);
      AnswersAppend(shown, done);
      hide Execute;
    }
  }

  lemma {:induction false} AskedAnswers(f: Flags, lines: seq<string>)
    ensures AnswersIn(Answered(f, lines).2) == if f.interactive then [Ask(lines).0] else []
  {
    hide Ask;
    assert forall e: Event :: [e][1..] == [];
  }

  /** The answers of a run are those that the user's lines give, in order, one for each plan shown if
      the user is asked, and none otherwise. */
  lemma {:induction false} AnswersAreTheUsers(w: World, f: Flags, pairs: seq<Pair>,
                                              before: seq<Event>, lines: seq<string>)
    ensures var answers := AnswersIn(EventsOf(w, f, pairs, before, lines));
            && answers == AnswersTo(lines, |answers|)
            && (!f.interactive ==> answers == [])
    decreases |pairs|
  {
    hide SectionOf, AnswersIn, Ask;
    if pairs == [] {
      NotAsked([]);
    } else {
      var section := SectionOf(w, f, pairs[0], before, lines);
      SectionAnswers(w, f, pairs[0], before, lines);
      if !section.end.Stop? {
        AnswersAreTheUsers(w, f, pairs[1..], before + section.events, section.lines);
        AnswersAppend(section.events,
                      EventsOf(w, f, pairs[1..], before + section.events, section.lines));
      }
    }
  }

  // ---- Errors, counted ------------------------------------------------------------------------

  /** Something about a pair failed: no plan, no status database, an execution that did not complete. */
  predicate IsFailure(e: Event) {
    || (e.PlanMade? && e.plan == None)
    || e == StatusOpened(false)
    || (e.Executed? && e.execution.end in {ExecutionFailed, StatusFailed})
  }

  function FailuresFrom(events: seq<Event>, k: nat): set<int> {
    set i | k <= i < |events| && IsFailure(events[i])
  }

  lemma {:induction false} OneMoreEvent(events: seq<Event>, k: nat)
    requires k < |events|
    ensures |FailuresFrom(events, k)| ==
            |FailuresFrom(events, k + 1)| + if IsFailure(events[k]) then 1 else 0
  {
    hide IsFailure;
    assert FailuresFrom(events, k) == FailuresFrom(events, k + 1) +
           if IsFailure(events[k]) then {k} else {};
  }

  lemma {:induction false} OneError(e: Event)
    ensures EventErrors(e) == (if e.Executed? then e.execution.errors else 0) +
                              (if IsFailure(e) then 1 else 0)
  {
  }

  lemma {:induction false} ErrorsFrom(events: seq<Event>, k: nat)
    requires k <= |events|
    ensures Errors(events[k..]) == Reported(events[k..]) + |FailuresFrom(events, k)|
    decreases |events| - k
  {
    if k < |events| {
      hide FailuresFrom, EventErrors, IsFailure;
      ErrorsFrom(events, k + 1);
      OneMoreEvent(events, k);
      OneError(events[k]);
      assert events[k..][1..] == events[k + 1..];
    } else {
      NoEventLeft(events);
    }
  }

  lemma {:induction false} NoEventLeft(events: seq<Event>)
    ensures FailuresFrom(events, |events|) == {}
  {
  }

  /** The errors counted are those that the executor reported and one for each failure. */
  lemma {:induction false} ErrorsExactly(events: seq<Event>)
    ensures Errors(events) == Reported(events) + |FailuresFrom(events, 0)|
  {
    ErrorsFrom(events, 0);
    assert events[0..] == events;
  }
}
