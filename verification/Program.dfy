/** From the configuration file to running pairs: parsing and start-up together. */
module Program {
  import opened Wrappers
  import opened ScfgBlocks
  import opened Cli
  import opened Config
  import opened ConfigTheorems
  import opened Startup
  import opened StartupSafety
  import opened StartupTheorems

  /** `c` is the start-up of configuration `config`: its pairs, in any order, and its storages. */
  ghost predicate StartsFrom(c: Setup, config: Config) {
    && c.storages == config.storages
    && (forall i, j | 0 <= i < j < |c.pairs| :: c.pairs[i].0 != c.pairs[j].0)
    && (forall i | 0 <= i < |c.pairs| ::
          c.pairs[i].0 in config.pairs && config.pairs[c.pairs[i].0] == c.pairs[i].1)
    && (forall name | name in config.pairs :: exists i :: 0 <= i < |c.pairs| && c.pairs[i].0 == name)
  }

  /** Start-up reads the same storage names that parsing recorded, for the same sides. */
  lemma {:induction false} NamesRecorded(c: Setup, config: Config, t: nat, x: Side)
    requires StartsFrom(c, config) && t < |c.pairs| && Names(c, t).Ok?
    ensures var (pair, block) := c.pairs[t];
            FirstParam(pair, block, if x.A? then "storage_a" else "storage_b") == Ok(Name(c, t, x))
    ensures Name(c, t, x) in StoragesNamed(config.pairs)
  {
    var (pair, block) := c.pairs[t];
    assert SingleParamOf(block, "storage_a").Ok?;
    assert FirstParam(pair, block, "storage_a") == Ok(Name(c, t, A));
    assert SingleParamOf(block.Without("storage_a"), "storage_b").Ok?;
    assert FirstParam(pair, block, "storage_b") == Ok(Name(c, t, B));
  }

  lemma {:induction false} UndefinedName(c: Setup, storage: string) returns (t: nat, x: Side)
    requires StartupError(c, NotDefined(storage))
    ensures t < |c.pairs| && Names(c, t).Ok? && Name(c, t, x) == storage
    ensures storage !in c.storages
  {
    hide SingleParamOf;
    t :| 0 <= t < |c.pairs| && PairError(c, t, NotDefined(storage));
    x := if storage == Name(c, t, A) then A else B;
  }

  lemma {:induction false} MissingStorage(c: Setup, config: Config, storage: string)
    requires StartsFrom(c, config)
    requires StartupError(c, NotDefined(storage))
    ensures storage in StoragesNamed(config.pairs) && storage !in config.storages
  {
    hide StartupError, StoragesNamed, Names, Name;
    var t, x := UndefinedName(c, storage);
    NamesRecorded(c, config, t, x);
  }

  /** "Not defined" is reported only for a storage that some selected pair names and no storage
      directive of the file defines. */
  lemma {:induction false} NotDefinedIsTrue(root: Block, wanted: Option<set<string>>,
                                            ran: seq<Command>, oracle: Oracle, c: Setup,
                                            steps: seq<Step>, storage: string)
    requires Parse(root, wanted, ran, oracle).result.Ok?
    requires StartsFrom(c, Parse(root, wanted, ran, oracle).result.value)
    requires Legal(c, Initial(c), steps)
    requires End(c, Initial(c), steps).supervisor.Exited?
    requires End(c, Initial(c), steps).supervisor.result == Err(NotDefined(storage))
    ensures storage !in NamesIn(root.GetAll("storage"))
    ensures storage in StoragesNamed(Parse(root, wanted, ran, oracle).result.value.pairs)
  {
    ExactSelection(root, wanted, ran, oracle);
    RefinesSequential(c, steps);
    hide *;
    MissingStorage(c, Parse(root, wanted, ran, oracle).result.value, storage);
  }

  lemma {:induction false} JoinedName(c: Setup, s: State, t: nat)
    requires Inv(c, s) && t < |c.pairs|
    requires s.tasks[t].Joined? && s.tasks[t].result.Ok?
    ensures s.tasks[t].result.value.name == c.pairs[t].0
  {
    assert TaskOk(c, s, t);
  }

  lemma {:induction false} NamesInOrder(c: Setup, config: Config, running: seq<NamedPair>,
                                        order: seq<nat>)
    requires StartsFrom(c, config)
    requires |running| == |order| && Distinct(order)
    requires forall i | 0 <= i < |order| ::
               order[i] < |c.pairs| && running[i].name == c.pairs[order[i]].0
    requires forall t: nat | t < |c.pairs| :: t in order
    ensures forall i, j | 0 <= i < j < |running| :: running[i].name != running[j].name
    ensures (set i | 0 <= i < |running| :: running[i].name) == config.pairs.Keys
  {
    forall i, j | 0 <= i < j < |running| ensures running[i].name != running[j].name {
      assert order[i] != order[j];
    }
    var names := set i | 0 <= i < |running| :: running[i].name;
    forall name | name in config.pairs ensures name in names {
      var t: nat :| t < |c.pairs| && c.pairs[t].0 == name;
      assert t in order;
      var i :| 0 <= i < |order| && order[i] == t;
      assert running[i].name == name;
    }
    forall name | name in names ensures name in config.pairs {
      var i :| 0 <= i < |running| && running[i].name == name;
    }
  }

  lemma {:induction false} RunningNames(c: Setup, config: Config, s: State)
    requires StartsFrom(c, config) && Inv(c, s)
    requires s.supervisor.Exited? && s.supervisor.result.Ok?
    ensures var running := s.supervisor.result.value;
            && (forall i, j | 0 <= i < j < |running| :: running[i].name != running[j].name)
            && (set i | 0 <= i < |running| :: running[i].name) == config.pairs.Keys
  {
    hide TaskOk, RunOk, CellOk, StartsFrom;
    var running, order := s.supervisor.result.value, s.supervisor.order;
    forall i | 0 <= i < |running|
      ensures order[i] < |c.pairs| && running[i].name == c.pairs[order[i]].0
    {
      JoinedName(c, s, order[i]);
    }
    forall t: nat | t < |c.pairs| ensures t in order {
      assert s.tasks[t].Joined?;
    }
    NamesInOrder(c, config, running, order);
  }

  /** When start-up succeeds, the running pairs are the requested ones (all defined ones, without a
      filter), each running once. */
  lemma {:induction false} RunningPairs(root: Block, wanted: Option<set<string>>, ran: seq<Command>,
                                        oracle: Oracle, c: Setup, steps: seq<Step>)
    requires Parse(root, wanted, ran, oracle).result.Ok?
    requires StartsFrom(c, Parse(root, wanted, ran, oracle).result.value)
    requires Legal(c, Initial(c), steps)
    requires End(c, Initial(c), steps).supervisor.Exited?
    requires End(c, Initial(c), steps).supervisor.result.Ok?
    ensures var running := End(c, Initial(c), steps).supervisor.result.value;
            && (forall i, j | 0 <= i < j < |running| :: running[i].name != running[j].name)
            && (set i | 0 <= i < |running| :: running[i].name) ==
                 if wanted.None? then NamesIn(root.GetAll("pair")) else wanted.value
  {
    ExactSelection(root, wanted, ran, oracle);
    Reachable(c, steps);
    hide *;
    RunningNames(c, Parse(root, wanted, ran, oracle).result.value, End(c, Initial(c), steps));
  }
}
