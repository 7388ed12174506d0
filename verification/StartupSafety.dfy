/** The invariant of start-up, and what it keeps from happening. */
module StartupSafety {
  import opened Wrappers
  import opened ScfgBlocks
  import opened Startup

  // ---- The invariant --------------------------------------------------------------------------

  /** `h` is what the run numbered `h.run` built for storage `name`. */
  predicate MadeBy(c: Setup, s: State, h: Handle, name: string) {
    && name in c.storages
    && c.init(c.storages[name], name) == Ok(h.built)
    && h.run < |s.runs|
    && s.runs[h.run].storage == name
  }

  /** Run `n` has swapped its cell and not published yet. */
  predicate InFlight(s: State, n: nat)
    requires n < |s.runs|
  {
    var r := s.runs[n];
    && r.task < |s.tasks|
    && s.tasks[r.task].Running?
    && match s.tasks[r.task].At(r.side)
       case Building(m, _) => m == n
       case Publishing(h) => h.run == n
       case _ => false
  }

  /** Run `n` has published and not notified yet. */
  predicate AboutToNotify(s: State, n: nat, h: Handle)
    requires n < |s.runs|
  {
    var r := s.runs[n];
    && r.task < |s.tasks|
    && s.tasks[r.task].Running?
    && s.tasks[r.task].At(r.side) == Notifying(h, Initialising(n))
  }

  predicate RunOk(c: Setup, s: State, n: nat)
    requires n < |s.runs|
  {
    var r := s.runs[n];
    && r.task < |s.tasks| == |c.pairs|
    && r.storage == Name(c, r.task, r.side)
    && r.storage in s.cells
    && match s.cells[r.storage]
       case Raw(_) => false
       case Initialising(m) =>
         m == n && r.generation == 0 && (InFlight(s, n) || s.tasks[r.task].Failed())
       case Ready(h) =>
         && h.run == n
         && (r.generation == 1 || (r.generation == 0 && AboutToNotify(s, n, h)))
  }

  predicate CellOk(c: Setup, s: State, name: string)
    requires name in s.cells
  {
    && name in c.storages
    && match s.cells[name]
       case Raw(config) => config == c.storages[name]
       case Initialising(n) => n < |s.runs| && s.runs[n].storage == name
       case Ready(h) => MadeBy(c, s, h, name)
  }

  predicate CallOk(c: Setup, s: State, t: nat, x: Side)
    requires t < |s.tasks| == |c.pairs| && s.tasks[t].Running?
  {
    var name := Name(c, t, x);
    match s.tasks[t].At(x)
    case Locking => true
    case Building(n, data) =>
      && name in s.cells && s.cells[name] == Initialising(n)
      && n < |s.runs| && s.runs[n] == Run(name, t, x, 0)
      && name in c.storages && data == Raw(c.storages[name])
    case Publishing(h) =>
      && name in s.cells && s.cells[name] == Initialising(h.run)
      && MadeBy(c, s, h, name) && s.runs[h.run] == Run(name, t, x, 0)
    case Notifying(h, data) =>
      && name in s.cells && s.cells[name] == Ready(h)
      && h.run < |s.runs| && s.runs[h.run] == Run(name, t, x, 0)
      && data == Initialising(h.run)
    case Waiting(n, g) =>
      g == 0 && n < |s.runs| && s.runs[n].storage == name
    case Relocking => name in s.cells && s.cells[name].Ready?
    case Returned(h) => name in s.cells && s.cells[name] == Ready(h)
  }

  /** `e` is a reason why pair `t` cannot be set up. */
  predicate PairError(c: Setup, t: nat, e: StartError)
    requires t < |c.pairs|
  {
    match Names(c, t)
    case Err(e') => e == e'
    case Ok((a, b)) =>
      || StorageError(c, a, e)
      || StorageError(c, b, e)
      || (&& Opens(c, a) && Opens(c, b)
          && FinishPair(c, t, SomeHandle(c, a), SomeHandle(c, b)) == Err(e))
  }

  predicate Opens(c: Setup, name: string) {
    name in c.storages && c.init(c.storages[name], name).Ok?
  }

  predicate StorageError(c: Setup, name: string, e: StartError) {
    if name !in c.storages then e == NotDefined(name)
    else
      match c.init(c.storages[name], name)
      case Ok(_) => false
      case Err(r) => e == InitFailed(name, r)
  }

  /** A stand-in for the storage `name`: what it is, without which run built it. */
  function SomeHandle(c: Setup, name: string): Handle
    requires Opens(c, name)
  {
    Handle(0, c.init(c.storages[name], name).value)
  }

  /** `p` is pair `t` set up with the storages that the cells hold. */
  predicate PairFromCells(c: Setup, s: State, t: nat, p: NamedPair)
    requires t < |c.pairs|
  {
    var a, b := Name(c, t, A), Name(c, t, B);
    && a in s.cells && s.cells[a].Ready?
    && b in s.cells && s.cells[b].Ready?
    && FinishPair(c, t, s.cells[a].handle, s.cells[b].handle) == Ok(p)
  }

  predicate TaskOk(c: Setup, s: State, t: nat)
    requires t < |s.tasks| == |c.pairs|
  {
    match s.tasks[t]
    case Unspawned => true
    case Running(a, b) =>
      && Names(c, t).Ok?
      && CallOk(c, s, t, A) && CallOk(c, s, t, B)
      && !(a.Notifying? && b.Notifying?)
    case Finished(r) => ResultOk(c, s, t, r)
    case Joined(r) => ResultOk(c, s, t, r)
    case Aborted => s.supervisor.Exited?
    case Crashed => false
  }

  predicate ResultOk(c: Setup, s: State, t: nat, r: Result<NamedPair, StartError>)
    requires t < |c.pairs|
  {
    && Names(c, t).Ok?
    && match r
       case Ok(p) => PairFromCells(c, s, t, p)
       case Err(e) => PairError(c, t, e)
  }

  predicate Distinct(order: seq<nat>) {
    forall i, j | 0 <= i < j < |order| :: order[i] != order[j]
  }

  /** The collected pairs are the results of exactly the joined tasks, each once. */
  predicate Collected(s: State, pairs: seq<NamedPair>, order: seq<nat>) {
    && |pairs| == |order| && Distinct(order)
    && (forall i | 0 <= i < |order| ::
          order[i] < |s.tasks| && s.tasks[order[i]] == Joined(Ok(pairs[i])))
    && (forall t | 0 <= t < |s.tasks| && s.tasks[t].Joined? :: t in order)
  }

  predicate SupervisorOk(c: Setup, s: State) {
    match s.supervisor
    case Spawning(k) =>
      && c.statusDir.Ok? && k <= |s.tasks|
      && (forall t | 0 <= t < |s.tasks| :: s.tasks[t].Unspawned? <==> k <= t)
      && (forall t | 0 <= t < |s.tasks| :: !s.tasks[t].Joined?)
    case Joining(pairs, order) =>
      && c.statusDir.Ok?
      && (forall t | 0 <= t < |s.tasks| :: !s.tasks[t].Unspawned?)
      && Collected(s, pairs, order)
    case Exited(Ok(pairs), order) =>
      && c.statusDir.Ok?
      && (forall t | 0 <= t < |s.tasks| :: s.tasks[t].Joined?)
      && Collected(s, pairs, order)
    case Exited(Err(e), _) => StartupError(c, e)
  }

  /** `e` is a reason why start-up as a whole fails. */
  predicate StartupError(c: Setup, e: StartError) {
    if c.statusDir.Err? then e == StatusDir
    else exists t :: 0 <= t < |c.pairs| && PairError(c, t, e)
  }

  predicate Inv(c: Setup, s: State) {
    && |s.tasks| == |c.pairs|
    && s.cells.Keys == c.storages.Keys
    && (forall n | 0 <= n < |s.runs| :: RunOk(c, s, n))
    && (forall name | name in s.cells :: CellOk(c, s, name))
    && (forall t | 0 <= t < |s.tasks| :: TaskOk(c, s, t))
    && SupervisorOk(c, s)
  }

  // ---- Every step keeps it --------------------------------------------------------------------

  lemma {:induction false} InitialInv(c: Setup)
    ensures Inv(c, Initial(c))
  {
  }

  /** The change from `s` to `s'` is one that call `x` of task `t` may make: it touches only its own
      program counter, its own run, and a cell that is raw or that its own run is initialising.
      A failure takes the whole task with it. */
  predicate Local(c: Setup, s: State, s': State, t: nat, x: Side) {
    && Movable(c, s, t, x)
    && s'.supervisor == s.supervisor
    && |s'.tasks| == |s.tasks|
    && (forall m | 0 <= m < |s.tasks| && m != t :: s'.tasks[m] == s.tasks[m])
    && (s'.tasks[t].Failed() ||
        (s'.tasks[t].Running? && s'.tasks[t].At(Other(x)) == s.tasks[t].At(Other(x))))
    && |s'.runs| >= |s.runs|
    && (forall n | 0 <= n < |s.runs| :: s'.runs[n] == s.runs[n] || OwnRun(s, s', n, t, x))
    && s'.cells.Keys == s.cells.Keys
    && (forall name | name in s.cells ::
          s'.cells[name] == s.cells[name] || s.cells[name].Raw? || OwnCell(s, s', name, t, x))
  }

  predicate OwnRun(s: State, s': State, n: nat, t: nat, x: Side)
    requires n < |s.runs| <= |s'.runs|
  {
    && s.runs[n].task == t && s.runs[n].side == x
    && s'.runs[n] == s.runs[n].(generation := s'.runs[n].generation)
  }

  predicate OwnCell(s: State, s': State, name: string, t: nat, x: Side)
    requires name in s.cells && name in s'.cells
  {
    && s.cells[name].Initialising? && s'.cells[name].Ready?
    && s.cells[name].notify < |s.runs|
    && s.runs[s.cells[name].notify].task == t && s.runs[s.cells[name].notify].side == x
  }

  lemma {:induction false} OtherCallsKeep(c: Setup, s: State, s': State, t: nat, x: Side, m: nat,
                                          y: Side)
    requires Inv(c, s) && Local(c, s, s', t, x)
    requires m < |s.tasks| && s.tasks[m].Running? && s'.tasks[m].Running?
    requires m != t || y != x
    ensures CallOk(c, s', m, y)
  {
    hide SupervisorOk, FinishPair, PairFromCells, CellOk, RunOk;
    assert TaskOk(c, s, m);
    assert CallOk(c, s, m, y);
    match s.tasks[m].At(y)
    case Waiting(n, _) => assert s'.runs[n] == s.runs[n] || OwnRun(s, s', n, t, x);
    case _ =>
  }

  lemma {:induction false} OtherTasksKeep(c: Setup, s: State, s': State, t: nat, x: Side)
    requires Inv(c, s) && Local(c, s, s', t, x)
    ensures forall m | 0 <= m < |s.tasks| && m != t :: TaskOk(c, s', m)
  {
    forall m | 0 <= m < |s.tasks| && m != t ensures TaskOk(c, s', m) {
      assert TaskOk(c, s, m);
      if s.tasks[m].Running? {
        OtherCallsKeep(c, s, s', t, x, m, A);
        OtherCallsKeep(c, s, s', t, x, m, B);
      }
    }
  }

  lemma {:induction false} OtherRunsKeep(c: Setup, s: State, s': State, t: nat, x: Side)
    requires Inv(c, s) && Local(c, s, s', t, x)
    ensures forall n | 0 <= n < |s.runs| && !(s.runs[n].task == t && s.runs[n].side == x) ::
              RunOk(c, s', n)
  {
    forall n | 0 <= n < |s.runs| && !(s.runs[n].task == t && s.runs[n].side == x)
      ensures RunOk(c, s', n)
    {
      assert RunOk(c, s, n);
    }
  }

  lemma {:induction false} OtherCellsKeep(c: Setup, s: State, s': State, t: nat, x: Side)
    requires Inv(c, s) && Local(c, s, s', t, x)
    ensures forall name | name in s.cells && s'.cells[name] == s.cells[name] :: CellOk(c, s', name)
  {
    forall name | name in s.cells && s'.cells[name] == s.cells[name] ensures CellOk(c, s', name) {
      assert CellOk(c, s, name);
    }
  }

  /** What remains to check after a local change. */
  lemma {:induction false} Rest(c: Setup, s: State, s': State, t: nat, x: Side)
    requires Inv(c, s) && Local(c, s, s', t, x)
    requires s'.tasks[t].Running? ==> CallOk(c, s', t, x)
    requires s'.tasks[t].Running? ==> !(s'.tasks[t].a.Notifying? && s'.tasks[t].b.Notifying?)
    requires !s'.tasks[t].Running? ==> TaskOk(c, s', t)
    requires !s'.tasks[t].Joined?
    requires forall n | 0 <= n < |s'.runs| && s'.runs[n].task == t && s'.runs[n].side == x ::
               RunOk(c, s', n)
    requires forall n | |s.runs| <= n < |s'.runs| :: s'.runs[n].task == t && s'.runs[n].side == x
    requires forall name | name in s'.cells && s'.cells[name] != s.cells[name] :: CellOk(c, s', name)
    ensures Inv(c, s')
  {
    OtherTasksKeep(c, s, s', t, x);
    OtherRunsKeep(c, s, s', t, x);
    OtherCellsKeep(c, s, s', t, x);
    assert TaskOk(c, s, t);
    if s'.tasks[t].Running? {
      OtherCallsKeep(c, s, s', t, x, t, Other(x));
    }
  }

  /** Nothing but task `t` and the supervisor changes, and an initialiser is dropped only with its
      task's failure. */
  predicate OnlyTask(s: State, s': State, t: nat) {
    && s'.cells == s.cells && s'.runs == s.runs
    && t < |s.tasks| == |s'.tasks|
    && s'.tasks == s.tasks[t := s'.tasks[t]]
    && (s.supervisor.Exited? ==> s'.supervisor.Exited?)
    && (s.tasks[t].Failed() ==> s'.tasks[t].Failed())
    && (s.tasks[t].Running? ==>
          || (s.tasks[t].a.Returned? && s.tasks[t].b.Returned?)
          || (s'.tasks[t].Failed() && !s.tasks[t].a.Notifying? && !s.tasks[t].b.Notifying?))
  }

  lemma {:induction false} TaskRest(c: Setup, s: State, s': State, t: nat)
    requires Inv(c, s) && OnlyTask(s, s', t)
    requires TaskOk(c, s', t) && SupervisorOk(c, s')
    ensures Inv(c, s')
  {
    hide SupervisorOk, FinishPair;
    forall n | 0 <= n < |s'.runs| ensures RunOk(c, s', n) { assert RunOk(c, s, n); }
    forall m | 0 <= m < |s'.tasks| ensures TaskOk(c, s', m) { assert TaskOk(c, s, m); }
  }

  lemma {:induction false} SpawnKeeps(c: Setup, s: State)
    requires Inv(c, s) && Enabled(c, s, Spawn)
    ensures Inv(c, DoSpawn(c, s))
  {
    var s' := DoSpawn(c, s);
    var k := s.supervisor.next;
    hide RunOk, CellOk, FinishPair;
    if k < |c.pairs| && Names(c, k).Ok? {
      TaskRest(c, s, s', k);
    } else {
      if k < |c.pairs| {
        assert PairError(c, k, s'.supervisor.result.error);
      }
      SupervisorRest(c, s, s');
    }
  }

  lemma {:induction false} SupervisorRest(c: Setup, s: State, s': State)
    requires Inv(c, s) && s' == s.(supervisor := s'.supervisor) && SupervisorOk(c, s')
    requires !s.supervisor.Exited?
    ensures Inv(c, s')
  {
    hide SupervisorOk, FinishPair;
    forall n | 0 <= n < |s'.runs| ensures RunOk(c, s', n) { assert RunOk(c, s, n); }
    forall m | 0 <= m < |s'.tasks| ensures TaskOk(c, s', m) { assert TaskOk(c, s, m); }
  }

  /** What the invariant says around one call. */
  lemma {:induction false} Around(c: Setup, s: State, t: nat, x: Side)
    requires Inv(c, s) && Movable(c, s, t, x)
    ensures TaskOk(c, s, t) && CallOk(c, s, t, x)
    ensures s.cells.Keys == c.storages.Keys
    ensures Name(c, t, x) in s.cells ==> CellOk(c, s, Name(c, t, x))
    ensures forall n | 0 <= n < |s.runs| && s.runs[n].storage == Name(c, t, x) :: RunOk(c, s, n)
    ensures forall n | 0 <= n < |s.runs| && s.runs[n].task == t && s.runs[n].side == x ::
              RunOk(c, s, n)
  {
    assert TaskOk(c, s, t);
  }

  lemma {:induction false} LockKeeps(c: Setup, s: State, t: nat, x: Side)
    requires Inv(c, s) && Enabled(c, s, Lock(t, x))
    ensures Inv(c, DoLock(c, s, t, x))
  {
    hide Inv, SupervisorOk, FinishPair, PairFromCells;
    var s' := DoLock(c, s, t, x);
    Around(c, s, t, x);
    forall n | 0 <= n < |s'.runs| && s'.runs[n].task == t && s'.runs[n].side == x
      ensures RunOk(c, s', n)
    {
      if n < |s.runs| { assert RunOk(c, s, n); }
    }
    Rest(c, s, s', t, x);
  }

  lemma {:induction false} BuildKeeps(c: Setup, s: State, t: nat, x: Side)
    requires Inv(c, s) && Enabled(c, s, Build(t, x))
    ensures Inv(c, DoBuild(c, s, t, x))
  {
    hide Inv, SupervisorOk, FinishPair, PairFromCells;
    var s' := DoBuild(c, s, t, x);
    Around(c, s, t, x);
    forall n | 0 <= n < |s'.runs| && s'.runs[n].task == t && s'.runs[n].side == x
      ensures RunOk(c, s', n)
    {
      if n < |s.runs| { assert RunOk(c, s, n); }
    }
    Rest(c, s, s', t, x);
  }

  lemma {:induction false} PublishKeeps(c: Setup, s: State, t: nat, x: Side)
    requires Inv(c, s) && Enabled(c, s, Publish(t, x))
    ensures Inv(c, DoPublish(c, s, t, x))
  {
    hide Inv, SupervisorOk, FinishPair, PairFromCells;
    var s' := DoPublish(c, s, t, x);
    Around(c, s, t, x);
    forall n | 0 <= n < |s'.runs| && s'.runs[n].task == t && s'.runs[n].side == x
      ensures RunOk(c, s', n)
    {
      if n < |s.runs| { assert RunOk(c, s, n); }
    }
    Rest(c, s, s', t, x);
  }

  lemma {:induction false} NotifyKeeps(c: Setup, s: State, t: nat, x: Side)
    requires Inv(c, s) && Enabled(c, s, Notify(t, x))
    ensures Inv(c, DoNotify(c, s, t, x))
  {
    hide Inv, SupervisorOk, FinishPair, PairFromCells;
    var s' := DoNotify(c, s, t, x);
    Around(c, s, t, x);
    forall n | 0 <= n < |s'.runs| && s'.runs[n].task == t && s'.runs[n].side == x
      ensures RunOk(c, s', n)
    {
      if n < |s.runs| { assert RunOk(c, s, n); }
    }
    Rest(c, s, s', t, x);
  }

  lemma {:induction false} WakeKeeps(c: Setup, s: State, t: nat, x: Side)
    requires Inv(c, s) && Enabled(c, s, Wake(t, x))
    ensures Inv(c, SetPc(s, t, x, Relocking))
  {
    hide Inv, SupervisorOk, FinishPair, PairFromCells;
    var s' := SetPc(s, t, x, Relocking);
    Around(c, s, t, x);
    forall n | 0 <= n < |s'.runs| && s'.runs[n].task == t && s'.runs[n].side == x
      ensures RunOk(c, s', n)
    {
      if n < |s.runs| { assert RunOk(c, s, n); }
    }
    Rest(c, s, s', t, x);
  }

  lemma {:induction false} RelockKeeps(c: Setup, s: State, t: nat, x: Side)
    requires Inv(c, s) && Enabled(c, s, Relock(t, x))
    ensures Inv(c, DoRelock(c, s, t, x))
  {
    hide Inv, SupervisorOk, FinishPair, PairFromCells;
    var s' := DoRelock(c, s, t, x);
    Around(c, s, t, x);
    forall n | 0 <= n < |s'.runs| && s'.runs[n].task == t && s'.runs[n].side == x
      ensures RunOk(c, s', n)
    {
      if n < |s.runs| { assert RunOk(c, s, n); }
    }
    Rest(c, s, s', t, x);
  }

  lemma {:induction false} ConcludeKeeps(c: Setup, s: State, t: nat)
    requires Inv(c, s) && Enabled(c, s, Conclude(t))
    ensures Inv(c, Apply(c, s, Conclude(t)))
  {
    hide RunOk;
    assert TaskOk(c, s, t);
    assert CellOk(c, s, Name(c, t, A)) && CellOk(c, s, Name(c, t, B));
    TaskRest(c, s, Apply(c, s, Conclude(t)), t);
  }

  lemma {:induction false} AbortKeeps(c: Setup, s: State, t: nat)
    requires Inv(c, s) && Enabled(c, s, Abort(t))
    ensures Inv(c, Apply(c, s, Abort(t)))
  {
    hide RunOk, CellOk;
    TaskRest(c, s, Apply(c, s, Abort(t)), t);
  }

  lemma {:induction false} JoinKeeps(c: Setup, s: State, t: nat)
    requires Inv(c, s) && Enabled(c, s, Join(t))
    ensures Inv(c, DoJoin(c, s, t))
  {
    hide RunOk, CellOk;
    assert TaskOk(c, s, t);
    TaskRest(c, s, DoJoin(c, s, t), t);
  }

  lemma {:induction false} ExitKeeps(c: Setup, s: State)
    requires Inv(c, s) && Enabled(c, s, Exit)
    ensures Inv(c, Apply(c, s, Exit))
  {
    SupervisorRest(c, s, Apply(c, s, Exit));
  }

  lemma {:induction false} StepKeeps(c: Setup, s: State, step: Step)
    requires Inv(c, s) && Enabled(c, s, step)
    ensures Inv(c, Apply(c, s, step))
  {
    match step
    case Spawn => SpawnKeeps(c, s);
    case Lock(t, x) => LockKeeps(c, s, t, x);
    case Build(t, x) => BuildKeeps(c, s, t, x);
    case Publish(t, x) => PublishKeeps(c, s, t, x);
    case Notify(t, x) => NotifyKeeps(c, s, t, x);
    case Wake(t, x) => WakeKeeps(c, s, t, x);
    case Relock(t, x) => RelockKeeps(c, s, t, x);
    case Conclude(t) => ConcludeKeeps(c, s, t);
    case Abort(t) => AbortKeeps(c, s, t);
    case Join(t) => JoinKeeps(c, s, t);
    case Exit => ExitKeeps(c, s);
  }

  lemma {:induction false} RunKeeps(c: Setup, s: State, steps: seq<Step>)
    requires Inv(c, s) && Legal(c, s, steps)
    ensures Inv(c, End(c, s, steps))
    decreases |steps|
  {
    if steps != [] {
      StepKeeps(c, s, steps[0]);
      RunKeeps(c, Apply(c, s, steps[0]), steps[1..]);
    }
  }
}
