/** Start-up as a labelled transition system.

    `Config::into_named_pairs` spawns one task per pair; every task makes two concurrent
    `StorageBuilder::get_storage` calls under `try_join!`, and the supervisor joins the tasks.
    One step below is one stretch of code that no other thread can observe half-done: a critical
    section of a cell's mutex, one `notify_waiters`, one resumption of an await. */
module Startup {
  import opened Wrappers
  import opened ScfgBlocks

  // ---- What start-up is given -----------------------------------------------------------------

  datatype ItemKind = Calendar | AddressBook

  datatype Side = A | B

  function Other(x: Side): Side {
    if x.A? then B else A
  }

  /** What a successful `init_storage` builds: the item kind and the monitor interval. */
  datatype Built = Built(kind: ItemKind, interval: nat)

  /** What a successful `get_storage` hands out. `run` is the identity of the `Arc<dyn Storage>`: the
      number of the execution of `init_storage` that created it. */
  datatype Handle = Handle(run: nat, built: Built)

  /** Everything a pair's block says besides its storages. */
  datatype PairOptions = PairOptions(collections: seq<string>, onEmpty: string, onDelete: string,
                                     oneWay: bool, resolution: Option<seq<string>>)

  datatype NamedPair = NamedPair(name: string, a: Handle, b: Handle, names: (string, string),
                                 options: PairOptions, statusDir: string)

  datatype StartError =
    | StatusDir
    | PairBlock(pair: string, error: Error)
    | NotDefined(storage: string)
    | InitFailed(storage: string, reason: string)
    | BadOptions(pair: string, reason: string)
    | MixedKinds(pair: string)
    | TaskPanicked

  /** The configuration plus the outside world: the result of expanding the status directory, of
      initialising a storage, and of parsing what remains of a pair's block.
      `pairs` lists the pairs in the order in which the hash map yields them. */
  datatype Setup = Setup(
    statusDir: Result<string, ()>,
    pairs: seq<(string, Block)>,
    storages: map<string, Block>,
    init: (Block, string) -> Result<Built, string>,
    parseOptions: Block -> Result<PairOptions, string>)

  function StorageKey(x: Side): string {
    if x.A? then "storage_a" else "storage_b"
  }

  /** The storage names of pair `t`, taken in the spawning loop. */
  function Names(c: Setup, t: nat): Result<(string, string), StartError>
    requires t < |c.pairs|
  {
    var (pair, block) := c.pairs[t];
    match SingleParamOf(block, StorageKey(A))
    case Err(e) => Err(PairBlock(pair, e))
    case Ok(a) =>
      match SingleParamOf(block.Without(StorageKey(A)), StorageKey(B))
      case Err(e) => Err(PairBlock(pair, e))
      case Ok(b) => Ok((a, b))
  }

  function StatusDirOf(c: Setup): string {
    if c.statusDir.Ok? then c.statusDir.value else ""
  }

  function Name(c: Setup, t: nat, x: Side): string
    requires t < |c.pairs|
  {
    match Names(c, t)
    case Err(_) => ""
    case Ok(names) => if x.A? then names.0 else names.1
  }

  /** What a pair's task does once both storages are open. */
  function FinishPair(c: Setup, t: nat, a: Handle, b: Handle): Result<NamedPair, StartError>
    requires t < |c.pairs|
  {
    var (pair, block) := c.pairs[t];
    match c.parseOptions(block.Without(StorageKey(A)).Without(StorageKey(B)))
    case Err(e) => Err(BadOptions(pair, e))
    case Ok(options) =>
      if a.built.kind != b.built.kind then
        Err(MixedKinds(pair))
      else
        Ok(NamedPair(pair, a, b, (Name(c, t, A), Name(c, t, B)), options, StatusDirOf(c)))
  }

  // ---- State ----------------------------------------------------------------------------------

  /** `LazyStorage`. */
  datatype Cell =
    | Raw(config: Block)
    | Initialising(notify: nat)
    | Ready(handle: Handle)

  /** Where one `get_storage` call is. */
  datatype Pc =
    | Locking                                   // waiting for the cell's mutex
    | Building(run: nat, data: Cell)            // swapped the cell; running init_storage on `data`
    | Publishing(handle: Handle)                // built; waiting for the mutex a second time
    | Notifying(handle: Handle, data: Cell)     // swapped Ready in, `data` out; not notified yet
    | Waiting(notify: nat, generation: nat)     // holds a `Notified` ticket
    | Relocking                                 // woken; waiting for the mutex
    | Returned(handle: Handle)

  datatype Task =
    | Unspawned
    | Running(a: Pc, b: Pc)
    | Finished(result: Result<NamedPair, StartError>)
    | Crashed                                   // an `unreachable!` was reached
    | Aborted
    | Joined(result: Result<NamedPair, StartError>)
  {
    function At(x: Side): Pc
      requires Running?
    {
      if x.A? then a else b
    }

    function Put(x: Side, pc: Pc): Task
      requires Running?
    {
      if x.A? then Running(pc, b) else Running(a, pc)
    }

    predicate Failed() {
      Aborted? || ((Finished? || Joined?) && result.Err?)
    }
  }

  /** One execution of the initialising branch: who runs it, for which storage, and how many times
      `notify_waiters` was called on the `Notify` that this execution created. */
  datatype Run = Run(storage: string, task: nat, side: Side, generation: nat)

  /** `order` is history: the task that each collected pair came from. */
  datatype Supervisor =
    | Spawning(next: nat)
    | Joining(pairs: seq<NamedPair>, order: seq<nat>)
    | Exited(result: Result<seq<NamedPair>, StartError>, order: seq<nat>)

  datatype State = State(cells: map<string, Cell>, runs: seq<Run>, tasks: seq<Task>,
                         supervisor: Supervisor)

  function Initial(c: Setup): State {
    State(map name | name in c.storages :: Raw(c.storages[name]), [],
          seq(|c.pairs|, _ => Unspawned),
          if c.statusDir.Err? then Exited(Err(StatusDir), []) else Spawning(0))
  }

  // ---- Steps ----------------------------------------------------------------------------------

  datatype Step =
    | Spawn
    | Lock(t: nat, x: Side)
    | Build(t: nat, x: Side)
    | Publish(t: nat, x: Side)
    | Notify(t: nat, x: Side)
    | Wake(t: nat, x: Side)
    | Relock(t: nat, x: Side)
    | Conclude(t: nat)
    | Abort(t: nat)
    | Join(t: nat)
    | Exit

  /** Call `x` of task `t` may move: nothing is awaited between publishing and notifying, so the
      task's other call cannot be polled in between. */
  predicate Movable(c: Setup, s: State, t: nat, x: Side) {
    && t < |s.tasks| == |c.pairs|
    && s.tasks[t].Running?
    && !s.tasks[t].At(Other(x)).Notifying?
  }

  predicate Enabled(c: Setup, s: State, step: Step) {
    match step
    case Spawn => s.supervisor.Spawning? && s.supervisor.next <= |s.tasks| == |c.pairs|
    case Lock(t, x) => Movable(c, s, t, x) && s.tasks[t].At(x).Locking?
    case Build(t, x) => Movable(c, s, t, x) && s.tasks[t].At(x).Building?
    case Publish(t, x) =>
      Movable(c, s, t, x) && s.tasks[t].At(x).Publishing? && Name(c, t, x) in s.cells
    case Notify(t, x) => Movable(c, s, t, x) && s.tasks[t].At(x).Notifying?
    case Wake(t, x) =>
      && Movable(c, s, t, x)
      && s.tasks[t].At(x).Waiting?
      && var ticket := s.tasks[t].At(x);
         ticket.notify < |s.runs| && s.runs[ticket.notify].generation > ticket.generation
    case Relock(t, x) =>
      Movable(c, s, t, x) && s.tasks[t].At(x).Relocking? && Name(c, t, x) in s.cells
    case Conclude(t) =>
      && t < |s.tasks| == |c.pairs|
      && s.tasks[t].Running? && s.tasks[t].a.Returned? && s.tasks[t].b.Returned?
    case Abort(t) =>
      && s.supervisor.Exited?
      && t < |s.tasks|
      && s.tasks[t].Running? && !s.tasks[t].a.Notifying? && !s.tasks[t].b.Notifying?
    case Join(t) =>
      s.supervisor.Joining? && t < |s.tasks| && (s.tasks[t].Finished? || s.tasks[t].Crashed?)
    case Exit =>
      s.supervisor.Joining? && forall t | 0 <= t < |s.tasks| :: s.tasks[t].Joined?
  }

  function SetTask(s: State, t: nat, task: Task): State
    requires t < |s.tasks|
  {
    s.(tasks := s.tasks[t := task])
  }

  function SetPc(s: State, t: nat, x: Side, pc: Pc): State
    requires t < |s.tasks| && s.tasks[t].Running?
  {
    SetTask(s, t, s.tasks[t].Put(x, pc))
  }

  /** `try_join!` returns the first error and drops the other call at its await. */
  function Fail(s: State, t: nat, e: StartError): State
    requires t < |s.tasks|
  {
    SetTask(s, t, Finished(Err(e)))
  }

  function DoSpawn(c: Setup, s: State): State
    requires Enabled(c, s, Spawn)
  {
    var k := s.supervisor.next;
    if k == |c.pairs| then
      s.(supervisor := Joining([], []))
    else
      match Names(c, k)
      case Err(e) => s.(supervisor := Exited(Err(e), []))
      case Ok(_) => SetTask(s, k, Running(Locking, Locking)).(supervisor := Spawning(k + 1))
  }

  function DoLock(c: Setup, s: State, t: nat, x: Side): State
    requires Enabled(c, s, Lock(t, x))
  {
    var name := Name(c, t, x);
    if name !in s.cells then
      Fail(s, t, NotDefined(name))
    else
      match s.cells[name]
      case Raw(_) =>
        SetPc(s, t, x, Building(|s.runs|, s.cells[name])).(
        cells := s.cells[name := Initialising(|s.runs|)],
        runs := s.runs + [Run(name, t, x, 0)])
      case Initialising(n) =>
        SetPc(s, t, x, Waiting(n, if n < |s.runs| then s.runs[n].generation else 0))
      case Ready(handle) =>
        SetPc(s, t, x, Returned(handle))
  }

  function DoBuild(c: Setup, s: State, t: nat, x: Side): State
    requires Enabled(c, s, Build(t, x))
  {
    var pc := s.tasks[t].At(x);
    if !pc.data.Raw? then
      SetTask(s, t, Crashed)
    else
      match c.init(pc.data.config, Name(c, t, x))
      case Err(e) => Fail(s, t, InitFailed(Name(c, t, x), e))
      case Ok(built) => SetPc(s, t, x, Publishing(Handle(pc.run, built)))
  }

  function DoPublish(c: Setup, s: State, t: nat, x: Side): State
    requires Enabled(c, s, Publish(t, x))
  {
    var name := Name(c, t, x);
    var handle := s.tasks[t].At(x).handle;
    SetPc(s, t, x, Notifying(handle, s.cells[name])).(cells := s.cells[name := Ready(handle)])
  }

  function DoNotify(c: Setup, s: State, t: nat, x: Side): State
    requires Enabled(c, s, Notify(t, x))
  {
    var pc := s.tasks[t].At(x);
    if !pc.data.Initialising? || pc.data.notify >= |s.runs| then
      SetTask(s, t, Crashed)
    else
      var n := pc.data.notify;
      SetPc(s, t, x, Returned(pc.handle)).(
      runs := s.runs[n := s.runs[n].(generation := s.runs[n].generation + 1)])
  }

  function DoRelock(c: Setup, s: State, t: nat, x: Side): State
    requires Enabled(c, s, Relock(t, x))
  {
    var cell := s.cells[Name(c, t, x)];
    if cell.Ready? then SetPc(s, t, x, Returned(cell.handle)) else SetTask(s, t, Crashed)
  }

  function DoJoin(c: Setup, s: State, t: nat): State
    requires Enabled(c, s, Join(t))
  {
    if s.tasks[t].Crashed? then
      s.(supervisor := Exited(Err(TaskPanicked), s.supervisor.order))
    else
      var s' := SetTask(s, t, Joined(s.tasks[t].result));
      match s.tasks[t].result
      case Err(e) => s'.(supervisor := Exited(Err(e), s.supervisor.order))
      case Ok(p) => s'.(supervisor := Joining(s.supervisor.pairs + [p], s.supervisor.order + [t]))
  }

  function Apply(c: Setup, s: State, step: Step): State
    requires Enabled(c, s, step)
  {
    match step
    case Spawn => DoSpawn(c, s)
    case Lock(t, x) => DoLock(c, s, t, x)
    case Build(t, x) => DoBuild(c, s, t, x)
    case Publish(t, x) => DoPublish(c, s, t, x)
    case Notify(t, x) => DoNotify(c, s, t, x)
    case Wake(t, x) => SetPc(s, t, x, Relocking)
    case Relock(t, x) => DoRelock(c, s, t, x)
    case Conclude(t) =>
      SetTask(s, t, Finished(FinishPair(c, t, s.tasks[t].a.handle, s.tasks[t].b.handle)))
    case Abort(t) => SetTask(s, t, Aborted)
    case Join(t) => DoJoin(c, s, t)
    case Exit => s.(supervisor := Exited(Ok(s.supervisor.pairs), s.supervisor.order))
  }

  /** A run: a schedule whose every step is enabled when it is taken. */
  predicate Legal(c: Setup, s: State, steps: seq<Step>)
    decreases |steps|
  {
    steps == [] || (Enabled(c, s, steps[0]) && Legal(c, Apply(c, s, steps[0]), steps[1..]))
  }

  function End(c: Setup, s: State, steps: seq<Step>): State
    requires Legal(c, s, steps)
    decreases |steps|
  {
    if steps == [] then s else End(c, Apply(c, s, steps[0]), steps[1..])
  }
}
