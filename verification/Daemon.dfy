/** The endless loop that keeps one pair synchronised, with everything that goes on beside it. */
module DaemonRuns {
  import opened Wrappers

  datatype Which = A | B

  /** What happened to a storage and its monitor so far, in numbers. */
  datatype Account = Account(
    /** How often the storage was changed, by anyone, the executor included. */
    changes: nat,
    /** Events that the monitor queued without a change, as a periodic check may. */
    others: nat,
    /** Events that are queued. */
    pending: nat,
    /** Events that the loop took. */
    taken: nat)

  /** A storage, and what the pair knows of it. */
  datatype Side = Side(
    watched: bool,
    now: Account,
    /** As it was when the latest plan that was made read it, or else when its monitor started. */
    known: Account,
    /** As it was when the plan that is being made read it, if it did. */
    draft: Option<Account>,
    /** How many of the changes were known to the latest plan that was executed successfully. */
    synced: nat)

  datatype Exit = MonitorFailed | StatusFailed

  datatype Pc =
    | StartMonitorA
    | StartMonitorB
    | OpenStatus
    | Selecting
    | Planning
    | Executing
    | Exited(exit: Exit)

  datatype Attempt = NeverTried | PlanFailed | ExecutionFailed | Synced

  datatype State = State(pc: Pc, a: Side, b: Side, last: Attempt)
  {
    function Of(which: Which): Side {
      if which.A? then a else b
    }

    function With(which: Which, side: Side): State {
      if which.A? then this.(a := side) else this.(b := side)
    }
  }

  datatype Executor = Done | SomeFailed | Fatal

  /** `Change` and `Tick`, an event without a change, are the world's doing, the rest the daemon's. A
      plan reads the two storages one at a time, in any order, and may fail at any time. */
  datatype Step =
    | Change(which: Which)
    | Tick(which: Which)
    | MonitorStarts(ok: bool)
    | StatusOpens(ok: bool)
    | Take(which: Which)
    | Read(which: Which)
    | PlanFails
    | PlanReady
    | Execute(result: Executor)

  function InitSide(changes: nat): Side {
    var account := Account(changes, 0, 0, 0);
    Side(false, account, account, None, 0)
  }

  function Init(changesA: nat, changesB: nat): State {
    State(StartMonitorA, InitSide(changesA), InitSide(changesB), NeverTried)
  }

  /** `select` looks at A's monitor first, so an event of B is only taken when A has none. */
  predicate Enabled(s: State, step: Step) {
    match step
    case Change(_) => true
    case Tick(which) => s.Of(which).watched
    case MonitorStarts(_) => s.pc.StartMonitorA? || s.pc.StartMonitorB?
    case StatusOpens(_) => s.pc.OpenStatus?
    case Take(which) =>
      s.pc.Selecting? && s.Of(which).now.pending > 0 && (which.B? ==> s.a.now.pending == 0)
    case Read(which) => s.pc.Planning? && s.Of(which).draft.None?
    case PlanFails => s.pc.Planning?
    case PlanReady => s.pc.Planning? && s.a.draft.Some? && s.b.draft.Some?
    case Execute(_) => s.pc.Executing?
  }

  function Changed(side: Side): Side {
    var now := side.now;
    side.(now := now.(changes := now.changes + 1,
                      pending := now.pending + if side.watched then 1 else 0))
  }

  function Ticked(side: Side): Side {
    side.(now := side.now.(others := side.now.others + 1, pending := side.now.pending + 1))
  }

  function Taken(side: Side): Side
    requires side.now.pending > 0
  {
    side.(now := side.now.(pending := side.now.pending - 1, taken := side.now.taken + 1))
  }

  function Watched(side: Side): Side {
    side.(watched := true, known := side.now)
  }

  function Committed(side: Side): Side
    requires side.draft.Some?
  {
    side.(known := side.draft.value, draft := None)
  }

  function Apply(s: State, step: Step): State
    requires Enabled(s, step)
  {
    match step
    case Change(which) => s.With(which, Changed(s.Of(which)))
    case Tick(which) => s.With(which, Ticked(s.Of(which)))
    case MonitorStarts(ok) =>
      if !ok then s.(pc := Exited(MonitorFailed))
      else if s.pc.StartMonitorA? then s.(pc := StartMonitorB, a := Watched(s.a))
      else s.(pc := OpenStatus, b := Watched(s.b))
    case StatusOpens(ok) => s.(pc := if ok then Selecting else Exited(StatusFailed))
    case Take(which) => s.(pc := Planning).With(which, Taken(s.Of(which)))
    case Read(which) => s.With(which, s.Of(which).(draft := Some(s.Of(which).now)))
    case PlanFails =>
      s.(pc := Selecting, last := PlanFailed, a := s.a.(draft := None), b := s.b.(draft := None))
    case PlanReady => s.(pc := Executing, a := Committed(s.a), b := Committed(s.b))
    case Execute(Fatal) => s.(pc := Exited(StatusFailed))
    case Execute(SomeFailed) => s.(pc := Selecting, last := ExecutionFailed)
    case Execute(Done) =>
      s.(pc := Selecting, last := Synced,
         a := s.a.(synced := s.a.known.changes), b := s.b.(synced := s.b.known.changes))
  }

  predicate Legal(s: State, steps: seq<Step>)
    decreases |steps|
  {
    steps == [] || (Enabled(s, steps[0]) && Legal(Apply(s, steps[0]), steps[1..]))
  }

  function End(s: State, steps: seq<Step>): State
    requires Legal(s, steps)
    decreases |steps|
  {
    if steps == [] then s else End(Apply(s, steps[0]), steps[1..])
  }

  ghost predicate Reachable(s: State) {
    exists changesA: nat, changesB: nat, steps: seq<Step> ::
      Legal(Init(changesA, changesB), steps) && End(Init(changesA, changesB), steps) == s
  }

  // ---- Invariant ------------------------------------------------------------------------------

  /** From `before` to `now`, every change and every other event was queued, and every event that was
      queued is queued still or was taken. */
  predicate Balanced(before: Account, now: Account) {
    && before.changes <= now.changes && before.others <= now.others && before.taken <= now.taken
    && now.pending + (now.taken - before.taken) ==
       before.pending + (now.changes - before.changes) + (now.others - before.others)
  }

  /** Nothing was taken since the latest plan that was made read the side. */
  predicate UpToDate(side: Side) {
    side.watched ==> side.now.taken == side.known.taken
  }

  ghost predicate SideOk(side: Side) {
    && side.synced <= side.known.changes <= side.now.changes
    && (side.watched ==> Balanced(side.known, side.now))
    && (side.draft.Some? ==>
          && side.watched
          && side.known.changes <= side.draft.value.changes
          && side.draft.value.taken == side.now.taken
          && Balanced(side.draft.value, side.now))
  }

  ghost predicate Inv(s: State) {
    && SideOk(s.a) && SideOk(s.b)
    && (s.pc.Exited? || (s.a.watched <==> !s.pc.StartMonitorA?))
    && (s.pc.Exited? || (s.b.watched <==> !s.pc.StartMonitorA? && !s.pc.StartMonitorB?))
    && (s.pc in {StartMonitorA, StartMonitorB, OpenStatus} ==> s.last.NeverTried?)
    && (!s.pc.Planning? ==> s.a.draft.None? && s.b.draft.None?)
    && (s.pc in {StartMonitorB, OpenStatus, Executing} ==> UpToDate(s.a) && UpToDate(s.b))
    && (s.pc.Selecting? && !s.last.PlanFailed? ==> UpToDate(s.a) && UpToDate(s.b))
    && (s.pc.Selecting? && s.last.Synced? ==>
          s.a.synced == s.a.known.changes && s.b.synced == s.b.known.changes)
  }

  lemma {:induction false} StepKeeps(s: State, step: Step)
    requires Inv(s) && Enabled(s, step)
    ensures Inv(Apply(s, step))
  {
    SideKeeps(s.a);
    SideKeeps(s.b);
    hide SideOk;
    match step
    case Change(_) =>
    case Tick(_) =>
    case MonitorStarts(_) =>
    case StatusOpens(_) =>
    case Take(_) =>
    case Read(_) =>
    case PlanFails =>
    case PlanReady => assert UpToDate(Apply(s, step).a) && UpToDate(Apply(s, step).b) by {
        DraftIsUpToDate(s.a);
        DraftIsUpToDate(s.b);
      }
    case Execute(_) =>
  }

  lemma {:induction false} DraftIsUpToDate(side: Side)
    requires SideOk(side) && side.draft.Some?
    ensures UpToDate(Committed(side))
  {
  }

  /** Whatever happens to a side keeps its account. */
  lemma {:induction false} SideKeeps(side: Side)
    requires SideOk(side)
    ensures SideOk(Changed(side))
    ensures side.watched ==> SideOk(Ticked(side))
    ensures side.draft.None? ==> SideOk(Watched(side))
    ensures side.draft.None? && side.now.pending > 0 ==> SideOk(Taken(side))
    ensures side.watched ==> SideOk(side.(draft := Some(side.now)))
    ensures SideOk(side.(draft := None))
    ensures side.draft.Some? ==> SideOk(Committed(side))
    ensures SideOk(side.(synced := side.known.changes))
  {
  }

  lemma {:induction false} RunKeeps(s: State, steps: seq<Step>)
    requires Inv(s) && Legal(s, steps)
    ensures Inv(End(s, steps))
    decreases |steps|
  {
    if steps != [] {
      StepKeeps(s, steps[0]);
      RunKeeps(Apply(s, steps[0]), steps[1..]);
    }
  }

  lemma {:induction false} ReachableInv(s: State)
    requires Reachable(s)
    ensures Inv(s)
  {
    var changesA: nat, changesB: nat, steps: seq<Step> :|
      Legal(Init(changesA, changesB), steps) && End(Init(changesA, changesB), steps) == s;
    RunKeeps(Init(changesA, changesB), steps);
  }

  // ---- What is known was read -----------------------------------------------------------------

  lemma {:induction false} LastStep(s: State, steps: seq<Step>)
    requires steps != [] && Legal(s, steps)
    ensures var n := |steps| - 1;
            && Legal(s, steps[..n])
            && Enabled(End(s, steps[..n]), steps[n])
            && End(s, steps) == Apply(End(s, steps[..n]), steps[n])
    decreases |steps|
  {
    hide Enabled, Apply;
    var n := |steps| - 1;
    if n == 0 {
      assert steps[1..] == [] && steps[..0] == [];
    } else {
      LastStep(Apply(s, steps[0]), steps[1..]);
      assert steps[1..][..n - 1] == steps[..n][1..];
    }
  }

  /** The storage as the plan that these steps are making has read it, if it has: it is as it was just
      before the step that read it. */
  function ReadBy(s: State, steps: seq<Step>, which: Which): Option<Account>
    requires Legal(s, steps)
    decreases |steps|
  {
    if steps == [] then None
    else
      var n := |steps| - 1;
      LastStep(s, steps);
      if steps[n] == Read(which) then Some(End(s, steps[..n]).Of(which).now)
      else if steps[n].PlanFails? || steps[n].PlanReady? then None
      else ReadBy(s, steps[..n], which)
  }

  /** The storage as the latest plan made by these steps has read it, if one was made. */
  function LatestPlan(s: State, steps: seq<Step>, which: Which): Option<Account>
    requires Legal(s, steps)
    decreases |steps|
  {
    if steps == [] then None
    else
      var n := |steps| - 1;
      LastStep(s, steps);
      if steps[n].PlanReady? then ReadBy(s, steps[..n], which)
      else LatestPlan(s, steps[..n], which)
  }

  /** What is taken to be known of a storage is what the latest plan made has read of it, no more and no
      less, in every run. */
  lemma {:induction false} KnownIsRead(changesA: nat, changesB: nat, steps: seq<Step>,
                                       which: Which)
    requires Legal(Init(changesA, changesB), steps)
    ensures var s0 := Init(changesA, changesB);
            var side := End(s0, steps).Of(which);
            && side.draft == ReadBy(s0, steps, which)
            && (LatestPlan(s0, steps, which).Some? ==>
                  side.known == LatestPlan(s0, steps, which).value)
    decreases |steps|
  {
    if steps != [] {
      var s0, n := Init(changesA, changesB), |steps| - 1;
      LastStep(s0, steps);
      KnownIsRead(changesA, changesB, steps[..n], which);
      StartsWithoutPlan(changesA, changesB, steps[..n], which);
    }
  }

  lemma {:induction false} StartsWithoutPlan(changesA: nat, changesB: nat, steps: seq<Step>,
                                             which: Which)
    requires Legal(Init(changesA, changesB), steps)
    ensures var s0 := Init(changesA, changesB);
            End(s0, steps).pc in {StartMonitorA, StartMonitorB, OpenStatus} ==>
              LatestPlan(s0, steps, which).None?
    decreases |steps|
  {
    if steps != [] {
      LastStep(Init(changesA, changesB), steps);
      StartsWithoutPlan(changesA, changesB, steps[..|steps| - 1], which);
    }
  }

  // ---- How it ends ----------------------------------------------------------------------------

  /** The daemon exits exactly when a monitor does not start, the status database does not open, or an
      execution fails fatally; then it does nothing more. Nothing else ends it. */
  lemma {:induction false} ExitsExactly(changesA: nat, changesB: nat, steps: seq<Step>)
    requires Legal(Init(changesA, changesB), steps)
    ensures var s := End(Init(changesA, changesB), steps);
            && (s.pc == Exited(MonitorFailed) <==> MonitorStarts(false) in steps)
            && (s.pc == Exited(StatusFailed) <==>
                StatusOpens(false) in steps || Execute(Fatal) in steps)
            && (s.pc.Exited? ==> forall step :: Enabled(s, step) ==> FromOutside(step))
    decreases |steps|
  {
    if steps != [] {
      var n := |steps| - 1;
      LastStep(Init(changesA, changesB), steps);
      ExitsExactly(changesA, changesB, steps[..n]);
      assert steps == steps[..n] + [steps[n]];
    }
  }

  /** A step of the world: something changes, or some monitor has an event of its own. */
  predicate FromOutside(step: Step) {
    step.Change? || step.Tick?
  }

  // ---- No change is missed --------------------------------------------------------------------

  /** Changes that the latest plan made does not know, and no event to have another plan made. */
  predicate Misses(side: Side) {
    side.now.changes > side.known.changes && side.now.pending == 0
  }

  /** Changes that are not synchronised, and no event to have that done. */
  predicate Behind(side: Side) {
    side.now.changes > side.synced && side.now.pending == 0
  }

  /** Since the latest plan that was made read the side, attempts to make another took more events
      than were queued then or came without a change: the event of some later change is gone. */
  predicate Wasted(side: Side) {
    side.now.taken - side.known.taken >
    side.known.pending + (side.now.others - side.known.others)
  }

  /** Whenever the daemon waits for events: a side's changes are missed exactly when no event is left
      and those of later changes went to plans that could not be made. So unless making the latest
      plan failed, there are at least as many events as changes that it does not know. */
  lemma {:induction false} NothingMissed(s: State)
    requires Reachable(s) && s.pc.Selecting?
    ensures forall which :: Misses(s.Of(which)) <==>
                            s.Of(which).now.pending == 0 && Wasted(s.Of(which))
    ensures !s.last.PlanFailed? ==>
              forall which :: !Wasted(s.Of(which)) &&
                s.Of(which).now.changes - s.Of(which).known.changes <= s.Of(which).now.pending
  {
    ReachableInv(s);
  }

  /** In the same way, changes are left unsynchronised with nothing to have them synchronised exactly
      when no event is left and their events were wasted, or the latest plan made knew of changes
      that no successful execution did: it was not executed, or some of its operations failed. */
  lemma {:induction false} LeftBehindExactly(s: State)
    requires Reachable(s) && s.pc.Selecting?
    ensures forall which :: Behind(s.Of(which)) <==>
              && s.Of(which).now.pending == 0
              && (Wasted(s.Of(which)) || s.Of(which).known.changes > s.Of(which).synced)
    ensures s.last.Synced? ==> forall which :: !Behind(s.Of(which))
  {
    ReachableInv(s);
  }

  /** After a successful synchronisation, a daemon with no event to work on is up to date. */
  lemma {:induction false} IdleMeansSynced(s: State)
    requires Reachable(s) && s.pc.Selecting? && s.last.Synced?
    requires s.a.now.pending == 0 && s.b.now.pending == 0
    ensures s.a.synced == s.a.now.changes && s.b.synced == s.b.now.changes
  {
    ReachableInv(s);
  }

  lemma {:induction false} OneMore(s: State, steps: seq<Step>, step: Step)
    requires Legal(s, steps) && Enabled(End(s, steps), step)
    ensures Legal(s, steps + [step]) && End(s, steps + [step]) == Apply(End(s, steps), step)
    decreases |steps|
  {
    hide Enabled, Apply;
    if steps == [] {
      assert Legal(Apply(s, step), []);
      assert (steps + [step])[1..] == [];
    } else {
      assert (steps + [step])[1..] == steps[1..] + [step];
      OneMore(Apply(s, steps[0]), steps[1..], step);
    }
  }

  lemma {:induction false} Next(s: State, step: Step) returns (s': State)
    requires Reachable(s) && Enabled(s, step)
    ensures s' == Apply(s, step) && Reachable(s')
  {
    hide Enabled, Apply, Init;
    var changesA: nat, changesB: nat, steps: seq<Step> :|
      Legal(Init(changesA, changesB), steps) && End(Init(changesA, changesB), steps) == s;
    OneMore(Init(changesA, changesB), steps, step);
    s' := Apply(s, step);
  }

  /** The first synchronisation waits for an event: what was there before is left alone until then. */
  lemma {:induction false} FirstSyncWaits(changesA: nat, changesB: nat) returns (s: State)
    ensures Reachable(s) && s.pc.Selecting? && s.last.NeverTried?
    ensures s.a == Watched(InitSide(changesA)) && s.b == Watched(InitSide(changesB))
    ensures changesA > 0 ==> Behind(s.a)
    ensures forall step :: Enabled(s, step) ==> FromOutside(step)
  {
    s := Init(changesA, changesB);
    assert Reachable(s) by {
      assert Legal(s, []) && End(s, []) == s;
    }
    hide Reachable;
    s := Next(s, MonitorStarts(true));
    s := Next(s, MonitorStarts(true));
    s := Next(s, StatusOpens(true));
  }

  /** A change, taken and on its way to a plan. */
  lemma {:induction false} OneChange() returns (s: State)
    ensures Reachable(s) && s.pc.Planning?
    ensures s.a == Taken(Changed(Watched(InitSide(0)))) && s.b == Watched(InitSide(0))
  {
    hide Reachable;
    s := FirstSyncWaits(0, 0);
    s := Next(s, Change(A));
    s := Next(s, Take(A));
  }

  /** A plan that cannot be made loses its event, whether or not it read the storages before: the
      change stays unknown, and the daemon does nothing more until the next event. */
  lemma {:induction false} FailedPlanLosesChange(afterReading: bool) returns (s: State)
    ensures Reachable(s) && s.pc.Selecting? && Misses(s.a) && Behind(s.a)
    ensures forall step :: Enabled(s, step) ==> FromOutside(step)
  {
    hide Reachable;
    s := OneChange();
    if afterReading {
      s := Next(s, Read(A));
      s := Next(s, Read(B));
    }
    s := Next(s, PlanFails);
  }

  /** Nor does the daemon by itself retry operations that failed. */
  lemma {:induction false} FailedExecutionIsNotRetried() returns (s: State)
    ensures Reachable(s) && s.pc.Selecting? && !Misses(s.a) && Behind(s.a)
    ensures forall step :: Enabled(s, step) ==> FromOutside(step)
  {
    hide Reachable;
    s := OneChange();
    s := Next(s, Read(A));
    s := Next(s, Read(B));
    s := Next(s, PlanReady);
    s := Next(s, Execute(SomeFailed));
  }

  // ---- Every change is planned for soon -------------------------------------------------------

  /** Change number `v` is not known to any plan that was made, but some event, of whichever side, or
      the plan being made, or the end of the execution, will lead to one. */
  ghost predicate Due(s: State, which: Which, v: nat) {
    && !s.pc.Exited? && s.Of(which).watched
    && s.Of(which).known.changes < v <= s.Of(which).now.changes
    && (s.pc.Selecting? ==> s.a.now.pending > 0 || s.b.now.pending > 0)
  }

  /** How many steps of the daemon it takes at most until such a plan is made. */
  function Distance(s: State, which: Which, v: nat): nat {
    match s.pc
    case StartMonitorA => 7
    case StartMonitorB => 6
    case OpenStatus => 5
    case Selecting => 4
    case Planning =>
      var toRead := (if s.a.draft.None? then 1 else 0) + (if s.b.draft.None? then 1 else 0);
      var draft := s.Of(which).draft;
      toRead + if draft.Some? && draft.value.changes < v then 6 else 1
    case Executing => 5
    case Exited(_) => 0
  }

  predicate Breaks(step: Step) {
    step in {PlanFails, MonitorStarts(false), StatusOpens(false), Execute(Fatal)}
  }

  lemma {:induction false} DueStep(s: State, which: Which, v: nat, step: Step)
    requires Inv(s) && Due(s, which, v) && Enabled(s, step) && !Breaks(step)
    ensures var s' := Apply(s, step);
            || s'.Of(which).known.changes >= v
            || (Due(s', which, v) &&
                Distance(s', which, v) <=
                  Distance(s, which, v) - if FromOutside(step) then 0 else 1)
  {
  }

  function OwnSteps(steps: seq<Step>): nat {
    if steps == [] then 0 else (if FromOutside(steps[0]) then 0 else 1) + OwnSteps(steps[1..])
  }

  /** In a reachable state with a change due, the daemon can go on by itself. */
  lemma {:induction false} DueCanGoOn(s: State, which: Which, v: nat)
    requires Reachable(s) && Due(s, which, v)
    ensures exists step :: Enabled(s, step) && !FromOutside(step) && !Breaks(step)
  {
    ReachableInv(s);
    var step :=
      match s.pc
      case StartMonitorA => MonitorStarts(true)
      case StartMonitorB => MonitorStarts(true)
      case OpenStatus => StatusOpens(true)
      case Selecting => Take(if s.a.now.pending > 0 then A else B)
      case Planning =>
        if s.a.draft.None? then Read(A) else if s.b.draft.None? then Read(B) else PlanReady
      case Executing => Execute(Done)
      case Exited(_) => PlanFails;
    assert Enabled(s, step) && !FromOutside(step) && !Breaks(step);
  }

  /** After these steps, a plan was made that knows change number `v`. */
  ghost predicate Known(s: State, steps: seq<Step>, which: Which, v: nat) {
    Legal(s, steps) && End(s, steps).Of(which).known.changes >= v
  }

  /** A change that is due is known to a plan that was made within seven steps of the daemon itself,
      however much else changes meanwhile and whichever side's events it takes, unless a plan
      cannot be made or the daemon exits. */
  lemma {:induction false} ChangeIsPlannedSoon(s: State, which: Which, v: nat, steps: seq<Step>)
    requires Inv(s) && Due(s, which, v) && Legal(s, steps)
    requires forall step | step in steps :: !Breaks(step)
    requires OwnSteps(steps) >= Distance(s, which, v)
    ensures exists k :: 0 < k <= |steps| && Known(s, steps[..k], which, v)
    decreases |steps|
  {
    assert Distance(s, which, v) > 0;
    var s1 := Apply(s, steps[0]);
    DueStep(s, which, v, steps[0]);
    StepKeeps(s, steps[0]);
    hide Inv, Due, Distance, Enabled, Apply, Breaks;
    if s1.Of(which).known.changes >= v {
      assert Legal(s1, []) && End(s1, []) == s1;
      assert steps[..1][1..] == [];
      assert Known(s, steps[..1], which, v);
    } else {
      ChangeIsPlannedSoon(s1, which, v, steps[1..]);
      var k :| 0 < k <= |steps[1..]| && Known(s1, steps[1..][..k], which, v);
      assert steps[..k + 1][1..] == steps[1..][..k];
      assert Known(s, steps[..k + 1], which, v);
    }
  }

  /** A change is due as soon as it happens, also after plans that failed. So is, at the next event of
      either side, every change that no plan made knows: what was lost is lost until then only. */
  lemma {:induction false} EventMakesDue(s: State, which: Which, event: Step, v: nat)
    requires Reachable(s) && !s.pc.Exited? && s.a.watched && s.b.watched
    requires FromOutside(event)
    requires s.Of(which).known.changes < v <= Apply(s, event).Of(which).now.changes
    ensures var s' := Apply(s, event);
            Inv(s') && Due(s', which, v) && Distance(s', which, v) <= 7
  {
    ReachableInv(s);
    StepKeeps(s, event);
  }

  /** While the daemon starts up, too, a change next to a running monitor is due at once. */
  lemma {:induction false} ChangeIsDue(s: State, which: Which)
    requires Reachable(s) && !s.pc.Exited? && s.Of(which).watched
    ensures var s' := Apply(s, Change(which));
            && Inv(s') && Due(s', which, s'.Of(which).now.changes)
            && Distance(s', which, s'.Of(which).now.changes) <= 7
  {
    ReachableInv(s);
    StepKeeps(s, Change(which));
  }
}
