/** A one-shot synchronisation of all pairs. */
module SyncRuns {
  import opened Wrappers
  import opened Plans
  import opened Prompt
  import opened Counters
  import opened InteractiveResolution

  datatype Pair = Pair(name: string, policy: Option<Policy>)

  datatype Flags = Flags(dryRun: bool, interactive: bool)

  /** One line of a printed plan. */
  datatype Line =
    | CollectionLine(description: string)
    | ItemLine(itemOp: ItemOp)
    | PropertyLine(propertyOp: PropertyOp)

  datatype Summary = Summary(collections: nat, items: nat, properties: nat, conflicts: nat,
                             stale: nat)

  /** `Ok(Ok(()))`, `Ok(Err(_))` and `Err(_)` of the executor. */
  datatype ExecutorEnd = Completed | ExecutionFailed | StatusFailed

  datatype Execution = Execution(errors: nat, end: ExecutorEnd)

  /** What happens, in order. */
  datatype Event =
    | PlanMade(pair: Pair, plan: Option<seq<Planned>>)
    | Heading(name: string)
    | Shown(line: Line)
    | Logged(error: string)
    | Totals(summary: Summary)
    | Asked(answer: YesNoQuit)
    | StatusOpened(ok: bool)
    | Executed(operations: seq<Planned>, execution: Execution)

  /** The world. What the planner, the status database and the executor do may depend on everything
      that happened before. */
  datatype World = World(planner: (seq<Event>, Pair) -> Option<seq<Planned>>,
                         keepSide: (Policy, seq<Planned>) -> seq<Planned>,
                         status: (seq<Event>, Pair) -> bool,
                         executor: (seq<Event>, Pair, seq<Planned>) -> Execution)

  /** The plan with conflicts resolved, if they are to be resolved by keeping a side. */
  function Resolved(w: World, pair: Pair, plan: seq<Planned>): seq<Planned> {
    if pair.policy.Some? && !pair.policy.value.Command? then w.keepSide(pair.policy.value, plan)
    else plan
  }

  // ---- Printing a plan ------------------------------------------------------------------------

  /** Stale mappings are only counted, errors in the plan only logged. */
  function LineOf(p: Planned): seq<Event> {
    match p
    case Ok(FlushStaleMappings(_)) => []
    case Ok(Collection(description)) => [Shown(CollectionLine(description))]
    case Ok(Item(op)) => [Shown(ItemLine(op))]
    case Ok(Property(op)) => [Shown(PropertyLine(op))]
    case Err(e) => [Logged(e)]
  }

  function Lines(plan: seq<Planned>): seq<Event> {
    if plan == [] then [] else LineOf(plan[0]) + Lines(plan[1..])
  }

  function Collections(plan: seq<Planned>): nat {
    if plan == [] then 0
    else (if plan[0].Ok? && plan[0].value.Collection? then 1 else 0) + Collections(plan[1..])
  }

  function Items(plan: seq<Planned>): nat {
    if plan == [] then 0
    else (if plan[0].Ok? && plan[0].value.Item? then 1 else 0) + Items(plan[1..])
  }

  function Properties(plan: seq<Planned>): nat {
    if plan == [] then 0
    else (if plan[0].Ok? && plan[0].value.Property? then 1 else 0) + Properties(plan[1..])
  }

  function Stale(plan: seq<Planned>): nat {
    if plan == [] then 0
    else
      (if plan[0].Ok? && plan[0].value.FlushStaleMappings? then |plan[0].value.staleUids| else 0) +
      Stale(plan[1..])
  }

  function SummaryOf(plan: seq<Planned>): Summary {
    Summary(Collections(plan), Items(plan), Properties(plan), ConflictCount(plan), Stale(plan))
  }

  class Log {
    var events: seq<Event>

    constructor ()
      ensures events == []
    {
      events := [];
    }

    method Add(e: Event)
      modifies this
      ensures events == old(events) + [e]
    {
      events := events + [e];
    }
  }

  function Display(name: string, plan: seq<Planned>): seq<Event> {
    [Heading(name)] + Lines(plan) + [Totals(SummaryOf(plan))]
  }

  lemma {:induction false} PlanHead(plan: seq<Planned>, i: nat)
    requires i < |plan|
    ensures Lines(plan[i..]) == LineOf(plan[i]) + Lines(plan[i + 1..])
    ensures var (s, t, p) := (SummaryOf(plan[i..]), SummaryOf(plan[i + 1..]), plan[i]);
            && s.collections - t.collections == (if p.Ok? && p.value.Collection? then 1 else 0)
            && s.items - t.items == (if p.Ok? && p.value.Item? then 1 else 0)
            && s.properties - t.properties == (if p.Ok? && p.value.Property? then 1 else 0)
            && s.conflicts - t.conflicts == (if p.Ok? && p.value.IsConflict() then 1 else 0)
            && s.stale - t.stale ==
               (if p.Ok? && p.value.FlushStaleMappings? then |p.value.staleUids| else 0)
  {
    assert plan[i..][1..] == plan[i + 1..];
  }

  lemma {:induction false} EmptyPlan(plan: seq<Planned>)
    requires |plan| == 0
    ensures Lines(plan) == [] && SummaryOf(plan) == Summary(0, 0, 0, 0, 0)
  {
  }

  method PrintAndCollectPlan(pair: Pair, plan: seq<Planned>, log: Log)
    returns (operations: seq<Planned>)
    modifies log
    ensures operations == plan
    ensures log.events == old(log.events) + Display(pair.name, plan)
  {
    hide Lines, Collections, Items, Properties, Stale, ConflictCount;
    operations := [];
    var collections: nat, items: nat, properties: nat, conflicts: nat, stale: nat := 0, 0, 0, 0, 0;
    log.Add(Heading(pair.name));
    ghost var shown := [];
    var i := 0;
    while i < |plan|
      invariant i <= |plan|
      invariant operations == plan[..i]
      invariant log.events == old(log.events) + [Heading(pair.name)] + shown
      invariant shown + Lines(plan[i..]) == Lines(plan)
      invariant Summary(collections + Collections(plan[i..]), items + Items(plan[i..]),
                        properties + Properties(plan[i..]), conflicts + ConflictCount(plan[i..]),
                        stale + Stale(plan[i..])) == SummaryOf(plan)
    {
      var result := plan[i];
      PlanHead(plan, i);
      shown := shown + LineOf(result);
      match result {
        case Ok(FlushStaleMappings(uids)) =>
          stale := stale + |uids|;
        case Ok(Collection(description)) =>
          collections := collections + 1;
          log.Add(Shown(CollectionLine(description)));
        case Ok(Item(op)) =>
          items := items + 1;
          if result.value.IsConflict() {
            conflicts := conflicts + 1;
          }
          log.Add(Shown(ItemLine(op)));
        case Ok(Property(op)) =>
          properties := properties + 1;
          if result.value.IsConflict() {
            conflicts := conflicts + 1;
          }
          log.Add(Shown(PropertyLine(op)));
        case Err(e) =>
          log.Add(Logged(e));
      }
      operations := operations + [result];
      i := i + 1;
    }
    EmptyPlan(plan[i..]);
    log.Add(Totals(Summary(collections, items, properties, conflicts, stale)));
  }

  // ---- One pair -------------------------------------------------------------------------------

  datatype PairEnd = GoOn | Stop | PairFailed

  /** What happens for one pair: events, what is left of the input, and how it ends. */
  datatype Section = Section(events: seq<Event>, lines: seq<string>, end: PairEnd)

  function Answered(f: Flags, lines: seq<string>): (YesNoQuit, seq<string>, seq<Event>) {
    if f.interactive then
      var (answer, rest) := Ask(lines);
      (answer, rest, [Asked(answer)])
    else (Yes, lines, [])
  }

  function Execute(w: World, pair: Pair, before: seq<Event>, plan: seq<Planned>)
    : (seq<Event>, PairEnd)
  {
    if !w.status(before, pair) then ([StatusOpened(false)], PairFailed)
    else
      var run := w.executor(before + [StatusOpened(true)], pair, plan);
      ([StatusOpened(true), Executed(plan, run)],
       if run.end.Completed? then GoOn else PairFailed)
  }

  function SectionOf(w: World, f: Flags, pair: Pair, before: seq<Event>, lines: seq<string>)
    : Section
  {
    match w.planner(before, pair)
    case None => Section([PlanMade(pair, None)], lines, PairFailed)
    case Some(plan) =>
      var resolved := Resolved(w, pair, plan);
      var (answer, rest, asked) := Answered(f, lines);
      var shown := [PlanMade(pair, Some(plan))] + Display(pair.name, resolved) + asked;
      if answer.Quit? then Section(shown, rest, Stop)
      else if answer.No? || f.dryRun then Section(shown, rest, GoOn)
      else
        var (done, end) := Execute(w, pair, before + shown, resolved);
        Section(shown + done, rest, end)
  }

  function EventErrors(e: Event): nat {
    match e
    case PlanMade(_, None) => 1
    case StatusOpened(false) => 1
    case Executed(_, run) => run.errors + if run.end.Completed? then 0 else 1
    case _ => 0
  }

  /** What went wrong: errors that the executor reported, and pairs that failed. */
  function Errors(events: seq<Event>): nat {
    if events == [] then 0 else EventErrors(events[0]) + Errors(events[1..])
  }

  /** Whether the operation shall continue, unless it failed. */
  method SyncOnce(w: World, f: Flags, pair: Pair, log: Log, input: Input, errorCount: Counter)
    returns (r: Result<bool, ()>)
    requires errorCount.Valid()
    modifies log, input, errorCount
    ensures errorCount.Valid()
    ensures var section := SectionOf(w, f, pair, old(log.events), old(input.lines));
            && log.events == old(log.events) + section.events
            && input.lines == section.lines
            && errorCount.value ==
               (old(errorCount.value) + Errors(section.events) - (if r.Err? then 1 else 0)) % U32
            && r == match section.end
                    case GoOn => Ok(true)
                    case Stop => Ok(false)
                    case PairFailed => Err(())
  {
    hide Ask, Resolved, Display, Errors, EventErrors;
    ghost var before := log.events;
    ghost var section := SectionOf(w, f, pair, log.events, input.lines);
    SectionErrors(w, f, pair, log.events, input.lines);
    var plan := w.planner(log.events, pair);
    log.Add(PlanMade(pair, plan));
    if plan.None? {
      return Err(());
    }
    var operations := PrintAndCollectPlan(pair, Resolved(w, pair, plan.value), log);
    DisplayLast(pair.name, operations);
    if f.interactive {
      var answer := ContinueSkipOrQuit(input);
      log.Add(Asked(answer));
      match answer {
        case Yes =>
        case No => return Ok(true);
        case Quit => return Ok(false);
      }
    }
    if !f.dryRun {
      ghost var shown := [PlanMade(pair, plan)] + Display(pair.name, operations) +
                   (if f.interactive then [Asked(Yes)] else []);
      assert log.events == before + shown;
      var available := w.status(log.events, pair);
      log.Add(StatusOpened(available));
      if !available {
        return Err(());
      }
      var run := w.executor(log.events, pair, operations);
      errorCount.FetchAdd(run.errors);
      log.Add(Executed(operations, run));
      assert log.events == before + (shown + [StatusOpened(true), Executed(operations, run)]);
      assert section.events == shown + [StatusOpened(true), Executed(operations, run)];
      if !run.end.Completed? {
        return Err(());
      }
    }
    return Ok(true);
  }

  lemma {:induction false} ErrorsAppend(a: seq<Event>, b: seq<Event>)
    ensures Errors(a + b) == Errors(a) + Errors(b)
    decreases |a|
  {
    if a == [] {
      assert a + b == b;
    } else {
      assert (a + b)[1..] == a[1..] + b;
      ErrorsAppend(a[1..], b);
    }
  }

  lemma {:induction false} LinesAreShown(plan: seq<Planned>)
    ensures forall i | 0 <= i < |Lines(plan)| :: Lines(plan)[i].Shown? || Lines(plan)[i].Logged?
    ensures Errors(Lines(plan)) == 0
  {
    if plan != [] {
      LinesAreShown(plan[1..]);
      ErrorsAppend(LineOf(plan[0]), Lines(plan[1..]));
    }
  }

  lemma {:induction false} DisplayErrors(name: string, plan: seq<Planned>)
    ensures Errors(Display(name, plan)) == 0
  {
    LinesAreShown(plan);
    ErrorsAppend([Heading(name)] + Lines(plan), [Totals(SummaryOf(plan))]);
    ErrorsAppend([Heading(name)], Lines(plan));
  }

  /** In one section, all errors are those of its execution, or it failed. */
  lemma {:induction false} SectionErrors(w: World, f: Flags, pair: Pair, before: seq<Event>,
                                         lines: seq<string>)
    ensures var section := SectionOf(w, f, pair, before, lines);
            var last := section.events[|section.events| - 1];
            && |section.events| > 0
            && Errors(section.events) == EventErrors(last)
            && Errors(section.events) == (if section.end.PairFailed? then 1 else 0) +
                                         (if last.Executed? then last.execution.errors else 0)
  {
    hide Ask, Resolved, Display;
    var plan := w.planner(before, pair);
    if plan.Some? {
      var resolved := Resolved(w, pair, plan.value);
      var (answer, rest, asked) := Answered(f, lines);
      var made := [PlanMade(pair, plan)];
      var shown := made + Display(pair.name, resolved) + asked;
      DisplayErrors(pair.name, resolved);
      ErrorsAppend(made, Display(pair.name, resolved));
      ErrorsAppend(made + Display(pair.name, resolved), asked);
      assert Errors(shown) == 0;
      assert EventErrors(shown[|shown| - 1]) == 0 by {
        DisplayLast(pair.name, resolved);
      }
      ErrorsAppend(shown, Execute(w, pair, before + shown, resolved).0);
      ExecuteErrors(w, pair, before + shown, resolved);
      hide Execute, Errors;
    }
  }

  lemma {:induction false} DisplayLast(name: string, plan: seq<Planned>)
    ensures var shown := Display(name, plan);
            shown != [] && shown[|shown| - 1] == Totals(SummaryOf(plan))
  {
  }

  lemma {:induction false} ExecuteErrors(w: World, pair: Pair, before: seq<Event>,
                                         plan: seq<Planned>)
    ensures var (done, end) := Execute(w, pair, before, plan);
            && done != []
            && var last := done[|done| - 1];
            && Errors(done) == EventErrors(last)
            && EventErrors(last) == (if end.PairFailed? then 1 else 0) +
                                    (if last.Executed? then last.execution.errors else 0)
  {
    if w.status(before, pair) {
      var run := w.executor(before + [StatusOpened(true)], pair, plan);
      var executed := Executed(plan, run);
      assert [StatusOpened(true), executed][1..] == [executed];
      assert Errors([executed]) == EventErrors(executed);
    }
  }

  // ---- All pairs ------------------------------------------------------------------------------

  function EventsOf(w: World, f: Flags, pairs: seq<Pair>, before: seq<Event>, lines: seq<string>)
    : seq<Event>
    decreases |pairs|
  {
    if pairs == [] then []
    else
      var section := SectionOf(w, f, pairs[0], before, lines);
      if section.end.Stop? then section.events
      else
        section.events + EventsOf(w, f, pairs[1..], before + section.events, section.lines)
  }

  /** Fails with the number of errors, as far as 32 bits can tell. */
  method Sync(w: World, f: Flags, pairs: seq<Pair>, log: Log, input: Input)
    returns (r: Result<(), nat>)
    requires log.events == []
    modifies log, input
    ensures log.events == EventsOf(w, f, pairs, [], old(input.lines))
    ensures r == if Errors(log.events) % U32 == 0 then Ok(())
                 else Err(Errors(log.events) % U32)
  {
    hide SectionOf, Errors;
    assert Errors(log.events) == 0 by {
      NoErrorsYet();
    }
    var errorCount := new Counter();
    var i := 0;
    while i < |pairs|
      invariant i <= |pairs|
      invariant errorCount.Valid() && fresh(errorCount)
      invariant errorCount.value == Errors(log.events) % U32
      invariant log.events + EventsOf(w, f, pairs[i..], log.events, input.lines) ==
                EventsOf(w, f, pairs, [], old(input.lines))
    {
      ghost var before := log.events;
      ghost var section := SectionOf(w, f, pairs[i], before, input.lines);
      ghost var more := EventsOf(w, f, pairs[i + 1..], before + section.events, section.lines);
      EventsHead(w, f, pairs, i, before, input.lines);
      SectionErrorsSum(w, f, pairs[i], before, input.lines);
      hide EventsOf;
      var result := SyncOnce(w, f, pairs[i], log, input, errorCount);
      if result.Err? {
        errorCount.FetchAdd(1);
      }
      assert errorCount.value == Errors(log.events) % U32;
      if result == Ok(false) {
        break;
      }
      assert (before + section.events) + more == before + (section.events + more);
      i := i + 1;
    }
    assert log.events == EventsOf(w, f, pairs, [], old(input.lines));
    var total := errorCount.value;
    return if total > 0 then Err(total) else Ok(());
  }

  lemma {:induction false} NoErrorsYet()
    ensures Errors([]) == 0
  {
  }

  lemma {:induction false} EventsHead(w: World, f: Flags, pairs: seq<Pair>, i: nat,
                                      before: seq<Event>, lines: seq<string>)
    requires i < |pairs|
    ensures var section := SectionOf(w, f, pairs[i], before, lines);
            EventsOf(w, f, pairs[i..], before, lines) ==
            section.events + if section.end.Stop? then []
                             else EventsOf(w, f, pairs[i + 1..], before + section.events,
                                           section.lines)
  {
    hide SectionOf;
    assert pairs[i..][1..] == pairs[i + 1..];
  }

  lemma {:induction false} SectionErrorsSum(w: World, f: Flags, pair: Pair, before: seq<Event>,
                                            lines: seq<string>)
    ensures var section := SectionOf(w, f, pair, before, lines);
            && Errors(before + section.events) == Errors(before) + Errors(section.events)
            && Errors(section.events) >= if section.end.PairFailed? then 1 else 0
  {
    ErrorsAppend(before, SectionOf(w, f, pair, before, lines).events);
    SectionErrors(w, f, pair, before, lines);
  }
}
