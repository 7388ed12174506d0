/** What holds of every run of start-up. */
module StartupTheorems {
  import opened Wrappers
  import opened ScfgBlocks
  import opened Startup
  import opened StartupSafety

  lemma {:induction false} Reachable(c: Setup, steps: seq<Step>)
    requires Legal(c, Initial(c), steps)
    ensures Inv(c, End(c, Initial(c), steps))
  {
    InitialInv(c);
    RunKeeps(c, Initial(c), steps);
  }

  // ---- Safety ---------------------------------------------------------------------------------

  /** None of the three `unreachable!` branches can be taken next, and none was taken before. */
  lemma {:induction false} UnreachableBranches(c: Setup, steps: seq<Step>, t: nat, x: Side)
    requires Legal(c, Initial(c), steps)
    requires t < |c.pairs|
    ensures var s := End(c, Initial(c), steps);
            && |s.tasks| == |c.pairs|
            && !s.tasks[t].Crashed?
            && (s.supervisor.Exited? ==> s.supervisor.result != Err(TaskPanicked))
            && (s.tasks[t].Running? ==>
                  var pc := s.tasks[t].At(x);
                  var name := Name(c, t, x);
                  && (pc.Building? ==> name in c.storages && pc.data == Raw(c.storages[name]))
                  && (pc.Publishing? ==> name in s.cells && s.cells[name].Initialising?)
                  && (pc.Notifying? ==> pc.data.Initialising?)
                  && (pc.Relocking? ==> name in s.cells && s.cells[name].Ready?))
  {
    Reachable(c, steps);
    assert TaskOk(c, End(c, Initial(c), steps), t);
  }

  /** At any moment, no storage was initialised, or started to be, twice. */
  lemma {:induction false} InitialisedAtMostOnce(c: Setup, steps: seq<Step>, m: nat, n: nat)
    requires Legal(c, Initial(c), steps)
    requires m < n < |End(c, Initial(c), steps).runs|
    ensures var s := End(c, Initial(c), steps); s.runs[m].storage != s.runs[n].storage
  {
    Reachable(c, steps);
    var s := End(c, Initial(c), steps);
    assert RunOk(c, s, m) && RunOk(c, s, n);
  }

  /** No lost wake-up. A call that found `Initialising` holds a ticket older than the one
      notification there will be, wherever its registration fell relative to publishing and
      notifying: either the notification came and the ticket is good, or the run it waits for is
      still to publish, or still to notify, or has failed with its task. */
  lemma {:induction false} NoLostWakeup(c: Setup, steps: seq<Step>, t: nat, x: Side)
    requires Legal(c, Initial(c), steps)
    requires t < |End(c, Initial(c), steps).tasks|
    requires End(c, Initial(c), steps).tasks[t].Running?
    requires End(c, Initial(c), steps).tasks[t].At(x).Waiting?
    ensures var s := End(c, Initial(c), steps);
            var Waiting(n, g) := s.tasks[t].At(x);
            && |s.tasks| == |c.pairs|
            && n < |s.runs| && s.runs[n].storage == Name(c, t, x)
            && s.runs[n].storage in s.cells
            && s.runs[n].task < |s.tasks|
            && (s.runs[n].generation > 0 <==> s.runs[n].generation > g)
            && (|| (s.runs[n].generation > g && s.cells[s.runs[n].storage].Ready?)
                || (s.cells[s.runs[n].storage] == Initialising(n) && InFlight(s, n))
                || (s.cells[s.runs[n].storage].Ready?
                    && AboutToNotify(s, n, s.cells[s.runs[n].storage].handle))
                || s.tasks[s.runs[n].task].Failed())
  {
    Reachable(c, steps);
    var s := End(c, Initial(c), steps);
    assert TaskOk(c, s, t);
    assert CallOk(c, s, t, x);
    assert RunOk(c, s, s.tasks[t].At(x).notify);
  }

  // ---- Success --------------------------------------------------------------------------------

  /** The storages that the pairs name. */
  predicate Referenced(c: Setup, name: string) {
    exists t, x :: 0 <= t < |c.pairs| && Name(c, t, x) == name
  }

  /** Exactly one run was for this storage. */
  predicate RunOnce(s: State, name: string) {
    exists n :: 0 <= n < |s.runs| && s.runs[n].storage == name
                && forall m | 0 <= m < |s.runs| && s.runs[m].storage == name :: m == n
  }

  lemma {:induction false} JoinedHolds(c: Setup, s: State, i: nat)
    requires Inv(c, s) && s.supervisor.Exited? && s.supervisor.result.Ok?
    requires i < |s.supervisor.result.value|
    ensures HoldsRuns(s, s.supervisor.result.value[i])
  {
    hide RunOk;
    var p := s.supervisor.result.value[i];
    assert TaskOk(c, s, s.supervisor.order[i]);
    assert CellOk(c, s, p.names.0) && CellOk(c, s, p.names.1);
  }

  lemma {:induction false} ReferencedRunsOnce(c: Setup, s: State, name: string)
    requires Inv(c, s) && s.supervisor.Exited? && s.supervisor.result.Ok?
    requires Referenced(c, name)
    ensures RunOnce(s, name)
  {
    hide FinishPair;
    var t, x :| 0 <= t < |c.pairs| && Name(c, t, x) == name;
    assert TaskOk(c, s, t);
    assert CellOk(c, s, name);
    var n := s.cells[name].handle.run;
    hide TaskOk, SupervisorOk, CellOk;
    forall m | 0 <= m < |s.runs| && s.runs[m].storage == name ensures m == n {
      assert RunOk(c, s, m);
    }
  }

  lemma {:induction false} SameRun(c: Setup, s: State, m: nat, n: nat)
    requires Inv(c, s) && m < |s.runs| && n < |s.runs|
    ensures s.runs[m].storage == s.runs[n].storage <==> m == n
  {
    hide TaskOk, SupervisorOk, CellOk;
    assert RunOk(c, s, m) && RunOk(c, s, n);
  }

  /** On success, every storage that some pair names was initialised exactly once and no other
      storage was, and two users of a storage hold the same object exactly when they name the same
      storage. */
  lemma {:induction false} SuccessSharesStorages(c: Setup, steps: seq<Step>)
    requires Legal(c, Initial(c), steps)
    requires End(c, Initial(c), steps).supervisor.Exited?
    requires End(c, Initial(c), steps).supervisor.result.Ok?
    ensures var s := End(c, Initial(c), steps);
            var pairs := s.supervisor.result.value;
            && (forall n | 0 <= n < |s.runs| :: Referenced(c, s.runs[n].storage))
            && (forall name | Referenced(c, name) :: RunOnce(s, name))
            && (forall i | 0 <= i < |pairs| :: HoldsRuns(s, pairs[i]))
            && (forall i, j | 0 <= i < |pairs| && 0 <= j < |pairs| ::
                  && (pairs[i].names.0 == pairs[j].names.0 <==> pairs[i].a.run == pairs[j].a.run)
                  && (pairs[i].names.0 == pairs[j].names.1 <==> pairs[i].a.run == pairs[j].b.run)
                  && (pairs[i].names.1 == pairs[j].names.1 <==> pairs[i].b.run == pairs[j].b.run))
  {
    Reachable(c, steps);
    var s := End(c, Initial(c), steps);
    var pairs := s.supervisor.result.value;
    forall n | 0 <= n < |s.runs| ensures Referenced(c, s.runs[n].storage) {
      assert RunOk(c, s, n);
    }
    hide Inv, Referenced, RunOnce, Legal, End;
    forall name | Referenced(c, name) ensures RunOnce(s, name) {
      ReferencedRunsOnce(c, s, name);
    }
    forall i | 0 <= i < |pairs| ensures HoldsRuns(s, pairs[i]) {
      JoinedHolds(c, s, i);
    }
    forall i, j | 0 <= i < |pairs| && 0 <= j < |pairs|
      ensures pairs[i].names.0 == pairs[j].names.0 <==> pairs[i].a.run == pairs[j].a.run
      ensures pairs[i].names.0 == pairs[j].names.1 <==> pairs[i].a.run == pairs[j].b.run
      ensures pairs[i].names.1 == pairs[j].names.1 <==> pairs[i].b.run == pairs[j].b.run
    {
      assert HoldsRuns(s, pairs[i]) && HoldsRuns(s, pairs[j]);
      SameRun(c, s, pairs[i].a.run, pairs[j].a.run);
      SameRun(c, s, pairs[i].a.run, pairs[j].b.run);
      SameRun(c, s, pairs[i].b.run, pairs[j].b.run);
    }
  }

  /** The pair's storage objects are those that the runs for the names in its block produced. */
  predicate HoldsRuns(s: State, p: NamedPair) {
    && p.a.run < |s.runs| && s.runs[p.a.run].storage == p.names.0
    && p.b.run < |s.runs| && s.runs[p.b.run].storage == p.names.1
  }

  // ---- Progress and termination ---------------------------------------------------------------

  /** Run `n` failed, or was dropped, before it notified anybody. */
  predicate Stranded(s: State, n: nat) {
    && n < |s.runs| && s.runs[n].generation == 0
    && s.runs[n].task < |s.tasks| && s.tasks[s.runs[n].task].Failed()
  }

  lemma {:induction false} StrandedOwner(c: Setup, s: State, step: Step, n: nat)
    requires Inv(c, s) && Stranded(s, n) && Enabled(c, s, step)
    ensures step.Notify? ==> s.tasks[step.t].At(step.x).data != Initialising(n)
    ensures step.Spawn? ==> s.runs[n].task != s.supervisor.next
  {
    hide RunOk, CellOk, FinishPair;
    if step.Notify? {
      assert TaskOk(c, s, step.t);
    }
  }

  lemma {:induction false} StrandedStep(c: Setup, s: State, step: Step, n: nat)
    requires Inv(c, s) && Stranded(s, n) && Enabled(c, s, step)
    ensures Stranded(Apply(c, s, step), n)
  {
    StrandedOwner(c, s, step, n);
    hide Inv, FinishPair;
    match step
    case Spawn =>
    case Lock(_, _) =>
    case Build(_, _) =>
    case Publish(_, _) =>
    case Notify(_, _) =>
    case Wake(_, _) =>
    case Relock(_, _) =>
    case Conclude(_) =>
    case Abort(_) =>
    case Join(_) =>
    case Exit =>
  }

  /** Exactly the waiters of such a run wait for ever: none of them is ever woken, whatever happens,
      while any other run was notified or is still on its way to be (`NoLostWakeup`). But as long as
      the supervisor is joining, the error of the task that stranded them is there to be joined, and
      joining it ends start-up with that error. */
  lemma {:induction false} StrandedForever(c: Setup, s: State, steps: seq<Step>, n: nat)
    requires Inv(c, s) && Stranded(s, n) && Legal(c, s, steps)
    ensures Stranded(End(c, s, steps), n)
    ensures forall t, x :: Waits(End(c, s, steps), t, x, n) ==>
                           !Enabled(c, End(c, s, steps), Wake(t, x))
    ensures var owner := s.runs[n].task;
            s.supervisor.Joining? ==>
              && Enabled(c, s, Join(owner))
              && s.tasks[owner].Finished? && s.tasks[owner].result.Err?
              && Apply(c, s, Join(owner)).supervisor ==
                 Exited(Err(s.tasks[owner].result.error), s.supervisor.order)
    decreases |steps|
  {
    if s.supervisor.Joining? {
      StrandedIsJoinable(c, s, n);
    }
    if steps != [] {
      hide Inv, Enabled, Apply;
      StrandedStep(c, s, steps[0], n);
      StepKeeps(c, s, steps[0]);
      StrandedForever(c, Apply(c, s, steps[0]), steps[1..], n);
    } else {
      StrandedSleeps(c, s, n);
    }
  }

  /** Call `x` of task `t` waits for run `n`. */
  predicate Waits(s: State, t: nat, x: Side, n: nat) {
    && t < |s.tasks| && s.tasks[t].Running? && s.tasks[t].At(x).Waiting?
    && s.tasks[t].At(x).notify == n
  }

  lemma {:induction false} StrandedSleeps(c: Setup, s: State, n: nat)
    requires Stranded(s, n)
    ensures forall t, x :: Waits(s, t, x, n) ==> !Enabled(c, s, Wake(t, x))
  {
  }

  lemma {:induction false} StrandedIsJoinable(c: Setup, s: State, n: nat)
    requires Inv(c, s) && Stranded(s, n) && s.supervisor.Joining?
    ensures var owner := s.runs[n].task;
            && Enabled(c, s, Join(owner))
            && s.tasks[owner].Finished? && s.tasks[owner].result.Err?
            && Apply(c, s, Join(owner)).supervisor ==
               Exited(Err(s.tasks[owner].result.error), s.supervisor.order)
  {
    assert TaskOk(c, s, s.runs[n].task);
  }

  /** A waiter never brings start-up to a halt: it can be woken, or the run it waits for can go on, or
      the failure of that run can be joined. */
  lemma {:induction false} BlockedByFailure(c: Setup, s: State, t: nat, x: Side)
    returns (step: Step)
    requires Inv(c, s) && s.supervisor.Joining?
    requires t < |s.tasks| && s.tasks[t].Running? && s.tasks[t].At(x).Waiting?
    ensures Enabled(c, s, step)
  {
    assert TaskOk(c, s, t) && CallOk(c, s, t, x);
    var n := s.tasks[t].At(x).notify;
    assert RunOk(c, s, n);
    var r := s.runs[n];
    assert TaskOk(c, s, r.task);
    if s.tasks[t].At(Other(x)).Notifying? {
      step := Notify(t, Other(x));
    } else if r.generation > 0 {
      step := Wake(t, x);
    } else if s.tasks[r.task].Failed() {
      step := Join(r.task);
    } else if s.tasks[r.task].At(Other(r.side)).Notifying? {
      step := Notify(r.task, Other(r.side));
    } else {
      assert CallOk(c, s, r.task, r.side);
      step := match s.tasks[r.task].At(r.side)
              case Building(_, _) => Build(r.task, r.side)
              case Publishing(_) => Publish(r.task, r.side)
              case _ => Notify(r.task, r.side);
    }
  }

  lemma {:induction false} CallProgress(c: Setup, s: State, t: nat, x: Side) returns (step: Step)
    requires Inv(c, s) && s.supervisor.Joining?
    requires t < |s.tasks| && s.tasks[t].Running? && !s.tasks[t].At(x).Returned?
    ensures Enabled(c, s, step)
  {
    assert TaskOk(c, s, t) && CallOk(c, s, t, x);
    if s.tasks[t].At(Other(x)).Notifying? {
      step := Notify(t, Other(x));
    } else {
      match s.tasks[t].At(x)
      case Locking => step := Lock(t, x);
      case Building(_, _) => step := Build(t, x);
      case Publishing(_) => step := Publish(t, x);
      case Notifying(_, _) => step := Notify(t, x);
      case Waiting(_, _) => step := BlockedByFailure(c, s, t, x);
      case Relocking => step := Relock(t, x);
    }
  }

  /** Start-up is never stuck: until the supervisor returns, some step is enabled. */
  lemma {:induction false} Progress(c: Setup, steps: seq<Step>) returns (step: Step)
    requires Legal(c, Initial(c), steps)
    requires !End(c, Initial(c), steps).supervisor.Exited?
    ensures Enabled(c, End(c, Initial(c), steps), step)
  {
    Reachable(c, steps);
    var s := End(c, Initial(c), steps);
    if s.supervisor.Spawning? {
      step := Spawn;
    } else if t :| 0 <= t < |s.tasks| && !s.tasks[t].Joined? {
      assert TaskOk(c, s, t);
      match s.tasks[t]
      case Running(a, b) =>
        if !a.Returned? {
          step := CallProgress(c, s, t, A);
        } else if !b.Returned? {
          step := CallProgress(c, s, t, B);
        } else {
          step := Conclude(t);
        }
      case Finished(_) => step := Join(t);
    } else {
      step := Exit;
    }
  }

  function PcRank(pc: Pc): nat {
    match pc
    case Locking => 5
    case Building(_, _) => 4
    case Publishing(_) => 3
    case Notifying(_, _) => 2
    case Waiting(_, _) => 2
    case Relocking => 1
    case Returned(_) => 0
  }

  function TaskRank(task: Task): nat {
    match task
    case Unspawned => 13
    case Running(a, b) => 2 + PcRank(a) + PcRank(b)
    case Finished(_) => 1
    case Crashed => 1
    case Aborted => 0
    case Joined(_) => 0
  }

  function TasksRank(tasks: seq<Task>): nat {
    if tasks == [] then 0 else TaskRank(tasks[0]) + TasksRank(tasks[1..])
  }

  function SupervisorRank(s: State): nat {
    match s.supervisor
    case Spawning(k) => if k <= |s.tasks| then |s.tasks| - k + 2 else 2
    case Joining(_, _) => 1
    case Exited(_, _) => 0
  }

  function Rank(s: State): nat {
    TasksRank(s.tasks) + SupervisorRank(s)
  }

  lemma {:induction false} RankUpdate(tasks: seq<Task>, t: nat, task: Task)
    requires t < |tasks|
    ensures TasksRank(tasks[t := task]) == TasksRank(tasks) - TaskRank(tasks[t]) + TaskRank(task)
  {
    if t == 0 {
      assert tasks[0 := task][1..] == tasks[1..];
    } else {
      assert tasks[t := task][1..] == tasks[1..][t - 1 := task];
      RankUpdate(tasks[1..], t - 1, task);
    }
  }

  lemma {:induction false} TaskDecreases(s: State, s': State, t: nat)
    requires t < |s.tasks| == |s'.tasks| && s'.tasks == s.tasks[t := s'.tasks[t]]
    requires TaskRank(s'.tasks[t]) < TaskRank(s.tasks[t])
    requires SupervisorRank(s') <= SupervisorRank(s)
    ensures Rank(s') < Rank(s)
  {
    RankUpdate(s.tasks, t, s'.tasks[t]);
  }

  lemma {:induction false} LockDecreases(c: Setup, s: State, t: nat, x: Side)
    requires Enabled(c, s, Lock(t, x))
    ensures Rank(DoLock(c, s, t, x)) < Rank(s)
  {
    TaskDecreases(s, DoLock(c, s, t, x), t);
  }

  lemma {:induction false} BuildDecreases(c: Setup, s: State, t: nat, x: Side)
    requires Enabled(c, s, Build(t, x))
    ensures Rank(DoBuild(c, s, t, x)) < Rank(s)
  {
    TaskDecreases(s, DoBuild(c, s, t, x), t);
  }

  lemma {:induction false} NotifyDecreases(c: Setup, s: State, t: nat, x: Side)
    requires Enabled(c, s, Notify(t, x))
    ensures Rank(DoNotify(c, s, t, x)) < Rank(s)
  {
    TaskDecreases(s, DoNotify(c, s, t, x), t);
  }

  lemma {:induction false} CallDecreases(c: Setup, s: State, step: Step)
    requires Enabled(c, s, step) && (step.Publish? || step.Wake? || step.Relock?)
    ensures Rank(Apply(c, s, step)) < Rank(s)
  {
    TaskDecreases(s, Apply(c, s, step), step.t);
  }

  /** Every step of every call, of every task and of the supervisor uses up rank. */
  lemma {:induction false} StepDecreases(c: Setup, s: State, step: Step)
    requires Inv(c, s) && Enabled(c, s, step)
    ensures Rank(Apply(c, s, step)) < Rank(s)
  {
    match step
    case Spawn =>
      var s' := Apply(c, s, step);
      if s'.supervisor.Spawning? { TaskDecreases(s, s', s.supervisor.next); }
    case Exit =>
    case Conclude(t) => TaskDecreases(s, Apply(c, s, step), t);
    case Abort(t) => TaskDecreases(s, Apply(c, s, step), t);
    case Join(t) =>
      assert TaskOk(c, s, t);
      TaskDecreases(s, Apply(c, s, step), t);
    case Lock(t, x) => LockDecreases(c, s, t, x);
    case Build(t, x) => BuildDecreases(c, s, t, x);
    case Notify(t, x) => NotifyDecreases(c, s, t, x);
    case _ => CallDecreases(c, s, step);
  }

  lemma {:induction false} RunBound(c: Setup, s: State, steps: seq<Step>)
    requires Inv(c, s) && Legal(c, s, steps)
    ensures |steps| + Rank(End(c, s, steps)) <= Rank(s)
    decreases |steps|
  {
    if steps != [] {
      StepKeeps(c, s, steps[0]);
      StepDecreases(c, s, steps[0]);
      RunBound(c, Apply(c, s, steps[0]), steps[1..]);
    }
  }

  lemma {:induction false} UnspawnedRank(tasks: seq<Task>)
    requires forall t | 0 <= t < |tasks| :: tasks[t].Unspawned?
    ensures TasksRank(tasks) == 13 * |tasks|
  {
    if tasks != [] {
      UnspawnedRank(tasks[1..]);
    }
  }

  /** Start-up terminates under every schedule, within fourteen steps a pair and two more. */
  lemma {:induction false} Terminates(c: Setup, steps: seq<Step>)
    requires Legal(c, Initial(c), steps)
    ensures |steps| <= 14 * |c.pairs| + 2
  {
    InitialInv(c);
    RunBound(c, Initial(c), steps);
    UnspawnedRank(Initial(c).tasks);
  }

  // ---- Refinement of the sequential start-up --------------------------------------------------

  /** Open one storage, unless it was opened before. */
  function OpenOnce(c: Setup, memo: map<string, Handle>, name: string)
    : Result<map<string, Handle>, StartError>
  {
    if name in memo then Ok(memo)
    else if name !in c.storages then Err(NotDefined(name))
    else
      match c.init(c.storages[name], name)
      case Err(e) => Err(InitFailed(name, e))
      case Ok(built) => Ok(memo[name := Handle(|memo|, built)])
  }

  /** Set up the pairs from the `k`-th on, one after another, initialising each storage when the
      first pair that names it comes up. */
  function PairsInSequence(c: Setup, k: nat, memo: map<string, Handle>)
    : Result<seq<NamedPair>, StartError>
    requires k <= |c.pairs|
    decreases |c.pairs| - k
  {
    if k == |c.pairs| then Ok([])
    else
      var (a, b) :- Names(c, k);
      var memo1 :- OpenOnce(c, memo, a);
      var memo2 :- OpenOnce(c, memo1, b);
      var pair :- FinishPair(c, k, memo2[a], memo2[b]);
      var rest :- PairsInSequence(c, k + 1, memo2);
      Ok([pair] + rest)
  }

  function Sequential(c: Setup): Result<seq<NamedPair>, StartError> {
    if c.statusDir.Err? then Err(StatusDir) else PairsInSequence(c, 0, map[])
  }

  /** The pair, forgetting which run made its storages. */
  function Plain(p: NamedPair): NamedPair {
    p.(a := p.a.(run := 0), b := p.b.(run := 0))
  }

  predicate PairFine(c: Setup, t: nat)
    requires t < |c.pairs|
  {
    && Names(c, t).Ok?
    && Opens(c, Name(c, t, A)) && Opens(c, Name(c, t, B))
    && FinishPair(c, t, SomeHandle(c, Name(c, t, A)), SomeHandle(c, Name(c, t, B))).Ok?
  }

  function PlainPair(c: Setup, t: nat): NamedPair
    requires t < |c.pairs| && PairFine(c, t)
  {
    FinishPair(c, t, SomeHandle(c, Name(c, t, A)), SomeHandle(c, Name(c, t, B))).value
  }

  lemma {:induction false} FineOrError(c: Setup, t: nat)
    requires t < |c.pairs|
    ensures PairFine(c, t) <==> forall e :: !PairError(c, t, e)
  {
    if !PairFine(c, t) {
      match Names(c, t)
      case Err(e) => assert PairError(c, t, e);
      case Ok((a, b)) =>
        if !Opens(c, a) {
          assert exists e :: StorageError(c, a, e) by { ErrorOf(c, a); }
          var e :| StorageError(c, a, e);
          assert PairError(c, t, e);
        } else if !Opens(c, b) {
          assert exists e :: StorageError(c, b, e) by { ErrorOf(c, b); }
          var e :| StorageError(c, b, e);
          assert PairError(c, t, e);
        } else {
          assert PairError(c, t, FinishPair(c, t, SomeHandle(c, a), SomeHandle(c, b)).error);
        }
    }
  }

  lemma {:induction false} ErrorOf(c: Setup, name: string)
    requires !Opens(c, name)
    ensures exists e :: StorageError(c, name, e)
  {
    if name !in c.storages {
      assert StorageError(c, name, NotDefined(name));
    } else {
      assert StorageError(c, name, InitFailed(name, c.init(c.storages[name], name).error));
    }
  }

  predicate MemoOk(c: Setup, memo: map<string, Handle>) {
    forall name | name in memo ::
      Opens(c, name) && memo[name].built == c.init(c.storages[name], name).value
  }

  /** Finishing a pair looks at what its storages are, not at which run made them. */
  lemma {:induction false} FinishIgnoresRuns(c: Setup, t: nat, a: Handle, b: Handle)
    requires t < |c.pairs| && Opens(c, Name(c, t, A)) && Opens(c, Name(c, t, B))
    requires a.built == SomeHandle(c, Name(c, t, A)).built
    requires b.built == SomeHandle(c, Name(c, t, B)).built
    ensures var r := FinishPair(c, t, SomeHandle(c, Name(c, t, A)), SomeHandle(c, Name(c, t, B)));
            && (FinishPair(c, t, a, b).Ok? <==> r.Ok?)
            && (r.Ok? ==> Plain(FinishPair(c, t, a, b).value) == r.value)
            && (r.Err? ==> FinishPair(c, t, a, b) == r)
  {
  }

  /** `pairs` are the fine pairs from the `k`-th on. */
  predicate AreFrom(c: Setup, k: nat, pairs: seq<NamedPair>) {
    && k + |pairs| == |c.pairs|
    && forall t | k <= t < |c.pairs| :: PairFine(c, t) && Plain(pairs[t - k]) == PlainPair(c, t)
  }

  lemma {:induction false} ConsFrom(c: Setup, k: nat, pair: NamedPair, rest: seq<NamedPair>)
    requires k < |c.pairs| && PairFine(c, k) && Plain(pair) == PlainPair(c, k)
    requires AreFrom(c, k + 1, rest)
    ensures AreFrom(c, k, [pair] + rest)
  {
    var pairs := [pair] + rest;
    forall t | k <= t < |c.pairs|
      ensures PairFine(c, t) && Plain(pairs[t - k]) == PlainPair(c, t)
    {
      if t > k {
        assert pairs[t - k] == rest[t - (k + 1)];
      }
    }
  }

  /** `r` is right for the pairs from the `k`-th on. */
  predicate Means(c: Setup, k: nat, r: Result<seq<NamedPair>, StartError>) {
    match r
    case Ok(pairs) => AreFrom(c, k, pairs)
    case Err(_) => exists t :: k <= t < |c.pairs| && !PairFine(c, t)
  }

  lemma {:induction false} MeansCons(c: Setup, k: nat, pair: NamedPair,
                                     rest: Result<seq<NamedPair>, StartError>)
    requires k < |c.pairs| && PairFine(c, k) && Plain(pair) == PlainPair(c, k)
    requires Means(c, k + 1, rest)
    ensures Means(c, k, match rest case Err(e) => Err(e) case Ok(ps) => Ok([pair] + ps))
  {
    match rest
    case Ok(ps) => ConsFrom(c, k, pair, ps);
    case Err(_) =>
      var t :| k + 1 <= t < |c.pairs| && !PairFine(c, t);
      assert k <= t < |c.pairs|;
  }

  lemma {:induction false} SequenceEnds(c: Setup, memo: map<string, Handle>,
                                        r: Result<seq<NamedPair>, StartError>)
    requires r == PairsInSequence(c, |c.pairs|, memo)
    ensures Means(c, |c.pairs|, r)
  {
  }

  lemma {:induction false} SequenceMeaning(c: Setup, k: nat, memo: map<string, Handle>,
                                           r: Result<seq<NamedPair>, StartError>)
    requires k <= |c.pairs| && MemoOk(c, memo)
    requires r == PairsInSequence(c, k, memo)
    ensures Means(c, k, r)
    decreases |c.pairs| - k
  {
    hide *;
    if k == |c.pairs| {
      SequenceEnds(c, memo, r);
    } else if PairFine(c, k) {
      var memo', rest := SequenceStep(c, k, memo, r);
      SequenceMeaning(c, k + 1, memo', rest);
    } else {
      SequenceStops(c, k, memo, r);
    }
  }

  lemma {:induction false} SequenceStep(c: Setup, k: nat, memo: map<string, Handle>,
                                        r: Result<seq<NamedPair>, StartError>)
    returns (memo': map<string, Handle>, rest: Result<seq<NamedPair>, StartError>)
    requires k < |c.pairs| && MemoOk(c, memo) && PairFine(c, k)
    requires r == PairsInSequence(c, k, memo)
    ensures MemoOk(c, memo')
    ensures rest == PairsInSequence(c, k + 1, memo')
    ensures Means(c, k + 1, rest) ==> Means(c, k, r)
  {
    hide FinishPair, Means, AreFrom, StorageError;
    var a, b := Name(c, k, A), Name(c, k, B);
    memo' := OpenOnce(c, OpenOnce(c, memo, a).value, b).value;
    FinishIgnoresRuns(c, k, memo'[a], memo'[b]);
    rest := PairsInSequence(c, k + 1, memo');
    if Means(c, k + 1, rest) {
      MeansCons(c, k, FinishPair(c, k, memo'[a], memo'[b]).value, rest);
    }
  }

  lemma {:induction false} SequenceStops(c: Setup, k: nat, memo: map<string, Handle>,
                                         r: Result<seq<NamedPair>, StartError>)
    requires k < |c.pairs| && MemoOk(c, memo) && !PairFine(c, k)
    requires r == PairsInSequence(c, k, memo)
    ensures Means(c, k, r)
  {
    if Names(c, k).Ok? {
      var a, b := Name(c, k, A), Name(c, k, B);
      if Opens(c, a) && Opens(c, b) {
        var memo2 := OpenOnce(c, OpenOnce(c, memo, a).value, b).value;
        FinishIgnoresRuns(c, k, memo2[a], memo2[b]);
      }
    }
  }

  /** When the supervisor has returned, under whatever interleaving and cancellations, it returned
      what setting up the pairs one after another returns: an error exactly when that does, and on
      success the same pairs, in the order in which their tasks happened to be joined.
      Whatever error is returned is the error of some pair. */
  lemma {:induction false} RefinesSequential(c: Setup, steps: seq<Step>)
    requires Legal(c, Initial(c), steps)
    requires End(c, Initial(c), steps).supervisor.Exited?
    ensures var Exited(result, order) := End(c, Initial(c), steps).supervisor;
            && (result.Ok? <==> Sequential(c).Ok?)
            && (result.Err? ==> StartupError(c, result.error))
            && (result.Ok? ==>
                  && |result.value| == |order| == |c.pairs| == |Sequential(c).value|
                  && Distinct(order)
                  && forall i | 0 <= i < |order| ::
                       && order[i] < |c.pairs|
                       && Plain(result.value[i]) == Plain(Sequential(c).value[order[i]]))
  {
    Reachable(c, steps);
    var s := End(c, Initial(c), steps);
    var Exited(result, order) := s.supervisor;
    if c.statusDir.Ok? { SequenceMeaning(c, 0, map[], Sequential(c)); }
    if result.Err? {
      if c.statusDir.Ok? {
        var t :| 0 <= t < |c.pairs| && PairError(c, t, result.error);
        FineOrError(c, t);
      }
    } else {
      forall t | 0 <= t < |c.pairs|
        ensures t in order && PairFine(c, t)
        ensures s.tasks[t].result.Ok? && Plain(s.tasks[t].result.value) == PlainPair(c, t)
      {
        JoinedIsFine(c, s, t);
      }
      AllIndices(order, |c.pairs|);
    }
  }

  /** Everything about pair `t` is in order. */
  predicate Sound(c: Setup, t: nat)
    requires t < |c.pairs|
  {
    var block := c.pairs[t].1;
    var a, b := SingleParamOf(block, "storage_a"),
                SingleParamOf(block.Without("storage_a"), "storage_b");
    && a.Ok? && b.Ok?
    && Opens(c, a.value) && Opens(c, b.value)
    && c.parseOptions(block.Without("storage_a").Without("storage_b")).Ok?
    && c.init(c.storages[a.value], a.value).value.kind ==
       c.init(c.storages[b.value], b.value).value.kind
  }

  /** What pair `t` comes to, in the terms of its own block. */
  predicate IsPair(c: Setup, t: nat, p: NamedPair)
    requires t < |c.pairs|
  {
    var (name, block) := c.pairs[t];
    && p.name == name
    && SingleParamOf(block, "storage_a") == Ok(p.names.0)
    && SingleParamOf(block.Without("storage_a"), "storage_b") == Ok(p.names.1)
    && Opens(c, p.names.0) && Ok(p.a.built) == c.init(c.storages[p.names.0], p.names.0)
    && Opens(c, p.names.1) && Ok(p.b.built) == c.init(c.storages[p.names.1], p.names.1)
    && Ok(p.options) == c.parseOptions(block.Without("storage_a").Without("storage_b"))
    && Ok(p.statusDir) == c.statusDir
  }

  lemma {:induction false} FineIsSound(c: Setup, t: nat)
    requires t < |c.pairs|
    ensures PairFine(c, t) <==> Sound(c, t)
  {
    hide SingleParamOf;
    assert StorageKey(A) == "storage_a" && StorageKey(B) == "storage_b";
  }

  lemma {:induction false} PlainIsPair(c: Setup, t: nat, p: NamedPair)
    requires t < |c.pairs| && PairFine(c, t) && Plain(p) == PlainPair(c, t) && c.statusDir.Ok?
    ensures IsPair(c, t, p)
  {
    hide SingleParamOf;
    var q := PlainPair(c, t);
    assert p.a.built == q.a.built && p.b.built == q.b.built && p.names == q.names;
    assert p.name == q.name && p.options == q.options && p.statusDir == q.statusDir;
  }

  /** Start-up returns Ok exactly when the status directory expands and, for every pair, the block is
      in order, both storages are defined and initialise, and their item kinds agree. The result
      is then one pair for each block, with the storages and intervals that initialising its
      storages gives. */
  lemma {:induction false} SucceedsExactly(c: Setup, steps: seq<Step>)
    requires Legal(c, Initial(c), steps)
    requires End(c, Initial(c), steps).supervisor.Exited?
    ensures var Exited(result, order) := End(c, Initial(c), steps).supervisor;
            && (result.Ok? <==> c.statusDir.Ok? && forall t | 0 <= t < |c.pairs| :: Sound(c, t))
            && (result.Ok? ==>
                  && |result.value| == |order| == |c.pairs| && Distinct(order)
                  && forall i | 0 <= i < |order| ::
                       order[i] < |c.pairs| && IsPair(c, order[i], result.value[i]))
  {
    RefinesSequential(c, steps);
    Reachable(c, steps);
    var s := End(c, Initial(c), steps);
    var Exited(result, order) := s.supervisor;
    forall t | 0 <= t < |c.pairs| ensures PairFine(c, t) <==> Sound(c, t) {
      FineIsSound(c, t);
    }
    if result.Ok? {
      forall i | 0 <= i < |order| ensures PairFine(c, order[i]) && IsPair(c, order[i], result.value[i]) {
        JoinedIsFine(c, s, order[i]);
        hide PairFine, IsPair, PlainPair;
        PlainIsPair(c, order[i], result.value[i]);
      }
      forall t | 0 <= t < |c.pairs| ensures PairFine(c, t) {
        assert s.tasks[t].Joined?;
        assert t in order;
      }
    } else if c.statusDir.Ok? {
      var t :| 0 <= t < |c.pairs| && PairError(c, t, result.error);
      FineOrError(c, t);
    }
  }

  /** `e` is the error for storage `name`: not defined, or not initialised. */
  predicate StorageReason(c: Setup, name: string, e: StartError) {
    || (name !in c.storages && e == NotDefined(name))
    || (name in c.storages && c.init(c.storages[name], name).Err?
        && e == InitFailed(name, c.init(c.storages[name], name).error))
  }

  /** `e` is what is wrong with pair `t`, if anything is: its block, one of its storages, its other
      directives, or storages of different kinds. */
  predicate Reason(c: Setup, t: nat, e: StartError)
    requires t < |c.pairs|
  {
    var (pair, block) := c.pairs[t];
    var a, b := SingleParamOf(block, "storage_a"),
                SingleParamOf(block.Without("storage_a"), "storage_b");
    if a.Err? then e == PairBlock(pair, a.error)
    else if b.Err? then e == PairBlock(pair, b.error)
    else if !Opens(c, a.value) || !Opens(c, b.value) then
      StorageReason(c, a.value, e) || StorageReason(c, b.value, e)
    else
      var options := c.parseOptions(block.Without("storage_a").Without("storage_b"));
      if options.Err? then e == BadOptions(pair, options.error)
      else
        && c.init(c.storages[a.value], a.value).value.kind !=
           c.init(c.storages[b.value], b.value).value.kind
        && e == MixedKinds(pair)
  }

  lemma {:induction false} ReasonExactly(c: Setup, t: nat, e: StartError)
    requires t < |c.pairs|
    ensures PairError(c, t, e) <==> Reason(c, t, e)
  {
    hide SingleParamOf;
    assert StorageKey(A) == "storage_a" && StorageKey(B) == "storage_b";
  }

  /** When start-up fails, it reports what is wrong: with the status directory, or with some pair. */
  lemma {:induction false} FailsForAReason(c: Setup, steps: seq<Step>)
    requires Legal(c, Initial(c), steps)
    requires End(c, Initial(c), steps).supervisor.Exited?
    requires End(c, Initial(c), steps).supervisor.result.Err?
    ensures var e := End(c, Initial(c), steps).supervisor.result.error;
            if c.statusDir.Err? then e == StatusDir
            else exists t :: 0 <= t < |c.pairs| && Reason(c, t, e)
  {
    RefinesSequential(c, steps);
    hide Reason, PairError, Legal, End, Sequential;
    var e := End(c, Initial(c), steps).supervisor.result.error;
    if c.statusDir.Ok? {
      var t :| 0 <= t < |c.pairs| && PairError(c, t, e);
      ReasonExactly(c, t, e);
    }
  }

  lemma {:induction false} JoinedIsFine(c: Setup, s: State, t: nat)
    requires Inv(c, s) && t < |c.pairs|
    requires s.tasks[t].Joined? && s.tasks[t].result.Ok?
    ensures PairFine(c, t) && Plain(s.tasks[t].result.value) == PlainPair(c, t)
  {
    assert TaskOk(c, s, t);
    var a, b := Name(c, t, A), Name(c, t, B);
    assert CellOk(c, s, a) && CellOk(c, s, b);
    FinishIgnoresRuns(c, t, s.cells[a].handle, s.cells[b].handle);
  }

  /** A list of distinct numbers that holds every number below `n`, and only those, has length `n`. */
  lemma {:induction false} AllIndices(order: seq<nat>, n: nat)
    requires Distinct(order)
    requires forall i | 0 <= i < |order| :: order[i] < n
    requires forall t | 0 <= t < n :: t in order
    ensures |order| == n
    decreases n
  {
    if order != [] {
      assert order[0] < n;
    }
    if n > 0 {
      var last: nat := n - 1;
      assert last in order;
      var i :| 0 <= i < |order| && order[i] == n - 1;
      var shorter := order[..i] + order[i + 1..];
      forall t | 0 <= t < n - 1 ensures t in shorter {
        assert t in order;
        var j :| 0 <= j < |order| && order[j] == t;
        assert shorter[if j < i then j else j - 1] == t;
      }
      AllIndices(shorter, n - 1);
    }
  }

  /** Total correctness. Every run can be extended until the supervisor returns, no run goes on
      beyond the bound, and what is returned is decided by the configuration alone. */
  lemma {:induction false} EveryMaximalRunReturns(c: Setup, steps: seq<Step>)
    requires Legal(c, Initial(c), steps)
    requires forall step :: !Enabled(c, End(c, Initial(c), steps), step)
    ensures var s := End(c, Initial(c), steps);
            && s.supervisor.Exited?
            && (s.supervisor.result.Ok? <==> Sequential(c).Ok?)
            && (forall t | 0 <= t < |s.tasks| :: !s.tasks[t].Running?)
  {
    var s := End(c, Initial(c), steps);
    if !s.supervisor.Exited? {
      var step := Progress(c, steps);
    }
    RefinesSequential(c, steps);
    Reachable(c, steps);
    forall t | 0 <= t < |s.tasks| ensures !s.tasks[t].Running? {
      assert TaskOk(c, s, t);
      assert !Enabled(c, s, Abort(t)) && !Enabled(c, s, Notify(t, A)) && !Enabled(c, s, Notify(t, B));
    }
  }
}
