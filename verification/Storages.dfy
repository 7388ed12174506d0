/** Selecting storages by themselves, to repair them. */
module NamedStorages {
  import opened Wrappers
  import opened ScfgBlocks
  import opened Cli
  import opened Config
  import opened ConfigTheorems
  import opened ParseOutcomes

  /** An initialisation that was started, and how many commands had been run by then. */
  datatype Started = Started(name: string, block: Block, commandsRun: nat)

  /** What is left of the filter, or the error. */
  datatype Spawning = Spawning(result: Result<Option<set<string>>, ConfigError>,
                               tasks: seq<Started>, ran: seq<Command>)

  function SpawnOne(d: Directive, wanted: Option<set<string>>, tasks: seq<Started>,
                    ran: seq<Command>, oracle: Oracle): Spawning
  {
    match SingleParam(d)
    case Err(e) => Spawning(Err(InBlock(e)), tasks, ran)
    case Ok(name) =>
      if !WantsName(wanted, name) then Spawning(Ok(wanted), tasks, ran)
      else if d.child.None? then Spawning(Err(StorageWithoutBlock(name)), tasks, ran)
      else
        var r := ResolveStorage(d.child.value, ran, oracle);
        match r.result
        case Err(e) => Spawning(Err(InStorage(name, e)), tasks, r.ran)
        case Ok(_) =>
          Spawning(Ok(Consume(wanted, name)), tasks + [Started(name, r.block, |r.ran|)], r.ran)
  }

  function SpawnAll(ds: seq<Directive>, wanted: Option<set<string>>, tasks: seq<Started>,
                    ran: seq<Command>, oracle: Oracle): Spawning
  {
    if ds == [] then Spawning(Ok(wanted), tasks, ran)
    else
      var first := SpawnOne(ds[0], wanted, tasks, ran, oracle);
      if first.result.Err? then first
      else SpawnAll(ds[1..], first.result.value, first.tasks, first.ran, oracle)
  }

  /** The first part of the program: everything up to waiting for the initialisations. */
  method ParseStorages(root: Scfg, filter: FilterNames, shell: Shell)
    returns (r: Result<seq<Started>, ConfigError>)
    modifies root, filter, shell
    ensures var spawning := SpawnAll(old(root.block).GetAll("storage"), old(filter.names), [],
                                     old(shell.ran), shell.oracle);
            && shell.ran == spawning.ran
            && r == if spawning.result.Err? then Err(spawning.result.error)
                    else if spawning.result.value.Some? && spawning.result.value.value != {} then
                      Err(MissingStorage(spawning.result.value.value))
                    else Ok(spawning.tasks)
  {
    var directives := root.Remove("storage");
    var ds := if directives.Some? then directives.value else [];
    var tasks := [];
    var i := 0;
    while i < |ds|
      invariant i <= |ds|
      invariant SpawnAll(ds[i..], filter.names, tasks, shell.ran, shell.oracle) ==
                SpawnAll(ds, old(filter.names), [], old(shell.ran), shell.oracle)
    {
      var directive := ds[i];
      var name := TakeSingleParam(directive);
      if name.Err? {
        return Err(InBlock(name.error));
      }
      ghost var before := filter.names;
      var wanted := filter.Wants(name.value);
      assert !wanted ==> before.value - {name.value} == before.value;
      if wanted {
        if directive.child.None? {
          return Err(StorageWithoutBlock(name.value));
        }
        var child := new Scfg(directive.child.value);
        var resolved := ResolveStorageCmds(child, shell);
        if resolved.Err? {
          return Err(InStorage(name.value, resolved.error));
        }
        tasks := tasks + [Started(name.value, child.block, |shell.ran|)];
      }
      i := i + 1;
    }
    var missing := filter.NextMissing();
    if missing.Some? {
      return Err(MissingStorage(filter.names.value));
    }
    return Ok(tasks);
  }

  // ---- What is started ------------------------------------------------------------------------

  /** The first directive with the given name. */
  function FirstNamed(ds: seq<Directive>, name: string): Option<Directive> {
    if ds == [] then None
    else if SingleParam(ds[0]) == Ok(name) then Some(ds[0])
    else FirstNamed(ds[1..], name)
  }

  /** The directives that are selected, one for each initialisation. */
  function Selected(ds: seq<Directive>, wanted: Option<set<string>>): seq<Directive> {
    if ds == [] then []
    else if SingleParam(ds[0]).Err? || !WantsName(wanted, SingleParam(ds[0]).value) then
      Selected(ds[1..], wanted)
    else
      [ds[0]] + Selected(ds[1..], Consume(wanted, SingleParam(ds[0]).value))
  }

  lemma {:induction false} SelectedAll(ds: seq<Directive>)
    requires forall d | d in ds :: SingleParam(d).Ok?
    ensures Selected(ds, None) == ds
  {
    hide SingleParam;
    if ds != [] {
      SelectedAll(ds[1..]);
    }
  }

  /** With a filter, the first definition of every requested name is selected and no other. */
  lemma {:induction false} SelectedExactly(ds: seq<Directive>, wanted: set<string>)
    requires forall d | d in ds :: SingleParam(d).Ok?
    ensures var s := Selected(ds, Some(wanted));
            && (forall d | d in s :: SingleParam(d).Ok? && SingleParam(d).value in wanted
                                     && FirstNamed(ds, SingleParam(d).value) == Some(d))
            && (forall i, j | 0 <= i < j < |s| :: SingleParam(s[i]) != SingleParam(s[j]))
            && NamesIn(s) == NamesIn(ds) * wanted
  {
    hide SingleParam;
    if ds != [] {
      var name := SingleParam(ds[0]).value;
      var s := Selected(ds, Some(wanted));
      if name in wanted {
        SelectedExactly(ds[1..], wanted - {name});
        var rest := Selected(ds[1..], Some(wanted - {name}));
        assert s == [ds[0]] + rest;
        hide Selected;
        SelectedHead(ds, s, wanted, name);
      } else {
        SelectedExactly(ds[1..], wanted);
        hide Selected;
        assert NamesIn(ds) == {name} + NamesIn(ds[1..]);
      }
    }
  }

  lemma {:induction false} SelectedHead(ds: seq<Directive>, s: seq<Directive>, wanted: set<string>,
                                        name: string)
    requires ds != [] && s != [] && s[0] == ds[0] && SingleParam(ds[0]) == Ok(name) && name in wanted
    requires forall d | d in s[1..] :: SingleParam(d).Ok? && SingleParam(d).value in wanted - {name}
                                       && FirstNamed(ds[1..], SingleParam(d).value) == Some(d)
    requires forall i, j | 0 <= i < j < |s[1..]| :: SingleParam(s[1..][i]) != SingleParam(s[1..][j])
    requires NamesIn(s[1..]) == NamesIn(ds[1..]) * (wanted - {name})
    ensures forall d | d in s :: SingleParam(d).Ok? && SingleParam(d).value in wanted
                                 && FirstNamed(ds, SingleParam(d).value) == Some(d)
    ensures forall i, j | 0 <= i < j < |s| :: SingleParam(s[i]) != SingleParam(s[j])
    ensures NamesIn(s) == NamesIn(ds) * wanted
  {
    hide SingleParam;
    assert NamesIn(s) == NamesIn(ds) * wanted by {
      assert NamesIn(s) == {name} + NamesIn(s[1..]);
      assert NamesIn(ds) == {name} + NamesIn(ds[1..]);
    }
    hide NamesIn;
    assert forall j | 0 < j < |s| :: s[j] == s[1..][j - 1] && s[j] in s[1..];
    forall d | d in s
      ensures SingleParam(d).Ok? && SingleParam(d).value in wanted
      ensures FirstNamed(ds, SingleParam(d).value) == Some(d)
    {
      assert d == s[0] || d in s[1..];
    }
  }

  /** The commands of these storages, one after the other. */
  function AllCommands(ds: seq<Directive>): seq<Command> {
    if ds == [] then []
    else
      (if ds[0].child.Some? then StorageCommands(ds[0].child.value) else []) + AllCommands(ds[1..])
  }

  /** `t` is the initialisation for `d`, on its block with the commands resolved, started when these
      had been run after the commands `ran`. */
  ghost predicate StartsWith(d: Directive, t: Started, ran: seq<Command>, oracle: Oracle) {
    && SingleParam(d) == Ok(t.name) && d.child.Some?
    && ResolvedFrom(d.child.value, t.block, ran, oracle)
    && t.commandsRun == |ran + StorageCommands(d.child.value)|
  }

  /** The initialisations started after the commands `ran`: one for each of these directives, after
      its own commands and those before. */
  ghost predicate OneEach(ds: seq<Directive>, tasks: seq<Started>, ran: seq<Command>,
                          oracle: Oracle)
    decreases |ds|
  {
    if ds == [] then tasks == []
    else
      && tasks != [] && StartsWith(ds[0], tasks[0], ran, oracle)
      && OneEach(ds[1..], tasks[1..], ran + StorageCommands(ds[0].child.value), oracle)
  }

  lemma {:induction false} SpawnedOne(d: Directive, wanted: Option<set<string>>,
                                      tasks: seq<Started>, ran: seq<Command>, oracle: Oracle)
    ensures var r := SpawnOne(d, wanted, tasks, ran, oracle);
            if r.result.Err? then r.tasks == tasks && ran <= r.ran
            else
              && SingleParam(d).Ok?
              && r.result.value == Consume(wanted, SingleParam(d).value)
              && if WantsName(wanted, SingleParam(d).value) then
                   && d.child.Some?
                   && r.ran == ran + StorageCommands(d.child.value)
                   && |r.tasks| == |tasks| + 1 && r.tasks == tasks + [r.tasks[|tasks|]]
                   && StartsWith(d, r.tasks[|tasks|], ran, oracle)
                 else r.tasks == tasks && r.ran == ran
  {
    hide ResolveStorage, StorageCommands, ResolvedFrom;
    if SingleParam(d).Ok? {
      var name := SingleParam(d).value;
      if WantsName(wanted, name) {
        if d.child.Some? {
          StorageResolved(d.child.value, ran, oracle);
        }
      } else {
        assert wanted.value - {name} == wanted.value;
      }
    }
  }

  /** What has been started, and run, when the first `n` of the selected directives have been. */
  ghost predicate StartedUpTo(selected: seq<Directive>, n: nat, tasks: seq<Started>,
                              ran: seq<Command>, all: seq<Command>, oracle: Oracle)
    requires n <= |selected|
  {
    && OneEach(selected[..n], tasks, ran, oracle)
    && ran + AllCommands(selected[..n]) <= all
  }

  lemma {:induction false} StartedMore(d: Directive, rest: seq<Directive>, n: nat,
                                       tasks: seq<Started>, ran: seq<Command>, all: seq<Command>,
                                       oracle: Oracle)
    requires tasks != [] && n <= |rest| && StartsWith(d, tasks[0], ran, oracle)
    requires StartedUpTo(rest, n, tasks[1..], ran + StorageCommands(d.child.value), all, oracle)
    ensures StartedUpTo([d] + rest, n + 1, tasks, ran, all, oracle)
  {
    hide StorageCommands, StartsWith;
    var more := ([d] + rest)[..n + 1];
    assert more[0] == d && more[1..] == rest[..n];
    assert StartsWith(d, tasks[0], ran, oracle) ==> d.child.Some? by {
      StartsWithChild(d, tasks[0], ran, oracle);
    }
    assert ran + AllCommands(more) ==
           ran + StorageCommands(d.child.value) + AllCommands(rest[..n]);
  }

  lemma {:induction false} StartsWithChild(d: Directive, t: Started, ran: seq<Command>,
                                           oracle: Oracle)
    ensures StartsWith(d, t, ran, oracle) ==> d.child.Some?
  {
  }

  lemma {:induction false} NothingStarted(selected: seq<Directive>, ran: seq<Command>,
                                          all: seq<Command>, oracle: Oracle)
    requires ran <= all
    ensures StartedUpTo(selected, 0, [], ran, all, oracle)
  {
    assert selected[..0] == [] && ran + AllCommands([]) == ran;
  }

  /** `r` started, beyond `tasks` and after the commands `ran`, one initialisation for each selected
      directive, up to the first failure if there is one. */
  ghost predicate Starts(r: Spawning, selected: seq<Directive>, tasks: seq<Started>,
                         ran: seq<Command>, oracle: Oracle)
  {
    && tasks <= r.tasks && |r.tasks| - |tasks| <= |selected|
    && StartedUpTo(selected, |r.tasks| - |tasks|, r.tasks[|tasks|..], ran, r.ran, oracle)
    && (r.result.Ok? ==>
          |r.tasks| - |tasks| == |selected| && r.ran == ran + AllCommands(selected))
  }

  lemma {:induction false} StartsNone(r: Spawning, selected: seq<Directive>, tasks: seq<Started>,
                                      ran: seq<Command>, oracle: Oracle)
    requires r.tasks == tasks && ran <= r.ran
    requires r.result.Ok? ==> selected == [] && r.ran == ran
    ensures Starts(r, selected, tasks, ran, oracle)
  {
    assert r.tasks[|tasks|..] == [];
    NothingStarted(selected, ran, r.ran, oracle);
    hide StartedUpTo;
  }

  lemma {:induction false} StartsOne(r: Spawning, d: Directive, rest: seq<Directive>,
                                     tasks: seq<Started>, t: Started, ran: seq<Command>,
                                     oracle: Oracle)
    requires StartsWith(d, t, ran, oracle)
    requires Starts(r, rest, tasks + [t], ran + StorageCommands(d.child.value), oracle)
    ensures Starts(r, [d] + rest, tasks, ran, oracle)
  {
    hide StartsWith, StartedUpTo, StorageCommands;
    var more := r.tasks[|tasks|..];
    assert more[0] == (tasks + [t])[|tasks|] && more[1..] == r.tasks[|tasks + [t]|..];
    StartedMore(d, rest, |more| - 1, more, ran, r.ran, oracle);
    assert ([d] + rest)[1..] == rest;
    StartsWithChild(d, t, ran, oracle);
    assert ran + AllCommands([d] + rest) ==
           ran + StorageCommands(d.child.value) + AllCommands(rest);
  }

  /** One initialisation is started for each selected directive, in file order, on its block with the
      outputs of its commands, up to the first failure if there is one; and the commands run are
      those of the selected storages, in file order. */
  lemma {:induction false} StartedExactly(ds: seq<Directive>, wanted: Option<set<string>>,
                                          tasks: seq<Started>, ran: seq<Command>, oracle: Oracle)
    ensures var r := SpawnAll(ds, wanted, tasks, ran, oracle);
            && Starts(r, Selected(ds, wanted), tasks, ran, oracle)
            && (r.result.Ok? ==> forall d | d in ds :: SingleParam(d).Ok?)
  {
    hide SpawnOne, StartsWith, Starts, SingleParam, StorageCommands;
    var selected := Selected(ds, wanted);
    var r := SpawnAll(ds, wanted, tasks, ran, oracle);
    if ds == [] {
      StartsNone(r, selected, tasks, ran, oracle);
    } else {
      SpawnedOne(ds[0], wanted, tasks, ran, oracle);
      var first := SpawnOne(ds[0], wanted, tasks, ran, oracle);
      if first.result.Err? {
        StartsNone(r, selected, tasks, ran, oracle);
      } else {
        var name := SingleParam(ds[0]).value;
        assert !WantsName(wanted, name) ==> wanted.value - {name} == wanted.value;
        StartedExactly(ds[1..], first.result.value, first.tasks, first.ran, oracle);
        if WantsName(wanted, name) {
          StartsOne(r, ds[0], Selected(ds[1..], first.result.value), tasks,
                    first.tasks[|tasks|], ran, oracle);
        }
      }
    }
  }

  // ---- When it succeeds -----------------------------------------------------------------------

  /** Directive `i` is selected: it is the first of its name, if there is a filter, and wanted. */
  ghost predicate SelectedAt(ds: seq<Directive>, wanted: Option<set<string>>, i: nat)
    requires i < |ds|
  {
    && IsWanted(wanted, ds[i])
    && (wanted.Some? ==> forall j | 0 <= j < i :: ds[j].params != ds[i].params)
  }

  /** Every storage directive has one name, and every selected one is fine after the commands of the
      selected ones before it. */
  ghost predicate SelectionFine(ds: seq<Directive>, wanted: Option<set<string>>,
                                ran: seq<Command>, oracle: Oracle)
  {
    forall i | 0 <= i < |ds| ::
      && |ds[i].params| == 1
      && (SelectedAt(ds, wanted, i) ==>
            StorageFine(ds[i], ran + AllCommands(Selected(ds[..i], wanted)), oracle))
  }

  /** The commands of a directive, if it is selected. */
  function OwnCommands(d: Directive, wanted: Option<set<string>>): seq<Command> {
    if IsWanted(wanted, d) && d.child.Some? then StorageCommands(d.child.value) else []
  }

  lemma {:induction false} SelectedLater(ds: seq<Directive>, wanted: Option<set<string>>, i: nat)
    requires 0 < i < |ds| && |ds[0].params| == 1 && |ds[i].params| == 1
    ensures SelectedAt(ds, wanted, i) <==>
            SelectedAt(ds[1..], Consume(wanted, ds[0].params[0]), i - 1)
  {
    assert ds[1..][i - 1] == ds[i];
    SameName(ds[0], ds[i]);
    assert forall j | 0 < j < i :: ds[1..][j - 1] == ds[j];
    assert forall j | 0 <= j < i - 1 :: ds[1..][j] == ds[j + 1];
  }

  lemma {:induction false} CommandsLater(ds: seq<Directive>, wanted: Option<set<string>>,
                                         ran: seq<Command>, i: nat)
    requires 0 < i <= |ds| && |ds[0].params| == 1
    ensures ran + AllCommands(Selected(ds[..i], wanted)) ==
            ran + OwnCommands(ds[0], wanted) +
            AllCommands(Selected(ds[1..][..i - 1], Consume(wanted, ds[0].params[0])))
  {
    hide StorageCommands;
    var wanted' := Consume(wanted, ds[0].params[0]);
    var rest := Selected(ds[1..][..i - 1], wanted');
    assert ds[..i][0] == ds[0] && ds[..i][1..] == ds[1..][..i - 1];
    if IsWanted(wanted, ds[0]) {
      assert Selected(ds[..i], wanted) == [ds[0]] + rest;
      assert ([ds[0]] + rest)[1..] == rest;
      assert ran + AllCommands([ds[0]] + rest) ==
             ran + OwnCommands(ds[0], wanted) + AllCommands(rest);
    } else {
      assert wanted.value - {ds[0].params[0]} == wanted.value;
      assert ran + OwnCommands(ds[0], wanted) == ran;
    }
  }

  lemma {:induction false} SelectionThen(ds: seq<Directive>, wanted: Option<set<string>>,
                                         ran: seq<Command>, oracle: Oracle)
    requires ds != [] && |ds[0].params| == 1
    ensures SelectionFine(ds, wanted, ran, oracle) <==>
            && (IsWanted(wanted, ds[0]) ==> StorageFine(ds[0], ran, oracle))
            && SelectionFine(ds[1..], Consume(wanted, ds[0].params[0]),
                             ran + OwnCommands(ds[0], wanted), oracle)
  {
    hide StorageFine, StorageCommands;
    var wanted', own := Consume(wanted, ds[0].params[0]), ran + OwnCommands(ds[0], wanted);
    assert ds[..0] == [] && ran + AllCommands(Selected([], wanted)) == ran;
    assert SelectedAt(ds, wanted, 0) <==> IsWanted(wanted, ds[0]);
    forall i | 0 < i < |ds|
      ensures ds[1..][i - 1] == ds[i]
      ensures |ds[i].params| == 1 ==>
                (SelectedAt(ds, wanted, i) <==> SelectedAt(ds[1..], wanted', i - 1))
      ensures ran + AllCommands(Selected(ds[..i], wanted)) ==
              own + AllCommands(Selected(ds[1..][..i - 1], wanted'))
    {
      CommandsLater(ds, wanted, ran, i);
      if |ds[i].params| == 1 {
        SelectedLater(ds, wanted, i);
      }
    }
    hide SelectedAt, Selected, AllCommands, OwnCommands;
    SelectionSplit(ds, wanted, wanted', ran, own, oracle);
  }

  lemma {:induction false} SelectionSplit(ds: seq<Directive>, wanted: Option<set<string>>,
                                          wanted': Option<set<string>>, ran: seq<Command>,
                                          own: seq<Command>, oracle: Oracle)
    requires ds != [] && |ds[0].params| == 1
    requires ran + AllCommands(Selected(ds[..0], wanted)) == ran
    requires SelectedAt(ds, wanted, 0) <==> IsWanted(wanted, ds[0])
    requires forall i | 0 < i < |ds| ::
               && ds[1..][i - 1] == ds[i]
               && (|ds[i].params| == 1 ==>
                     (SelectedAt(ds, wanted, i) <==> SelectedAt(ds[1..], wanted', i - 1)))
               && ran + AllCommands(Selected(ds[..i], wanted)) ==
                  own + AllCommands(Selected(ds[1..][..i - 1], wanted'))
    ensures SelectionFine(ds, wanted, ran, oracle) <==>
            && (IsWanted(wanted, ds[0]) ==> StorageFine(ds[0], ran, oracle))
            && SelectionFine(ds[1..], wanted', own, oracle)
  {
    hide SelectedAt, Selected, AllCommands, StorageFine, IsWanted;
    if SelectionFine(ds, wanted, ran, oracle) {
      forall i | 0 <= i < |ds[1..]|
        ensures |ds[1..][i].params| == 1
        ensures SelectedAt(ds[1..], wanted', i) ==>
                  StorageFine(ds[1..][i], own + AllCommands(Selected(ds[1..][..i], wanted')), oracle)
      {
        assert |ds[i + 1].params| == 1 && (i + 1) - 1 == i;
      }
    }
    if (IsWanted(wanted, ds[0]) ==> StorageFine(ds[0], ran, oracle))
       && SelectionFine(ds[1..], wanted', own, oracle) {
      forall i | 0 <= i < |ds|
        ensures |ds[i].params| == 1
        ensures SelectedAt(ds, wanted, i) ==>
                  StorageFine(ds[i], ran + AllCommands(Selected(ds[..i], wanted)), oracle)
      {
        if i > 0 {
          assert |ds[1..][i - 1].params| == 1;
        }
      }
    }
  }

  lemma {:induction false} SpawnsOne(d: Directive, wanted: Option<set<string>>,
                                     tasks: seq<Started>, ran: seq<Command>, oracle: Oracle)
    ensures var r := SpawnOne(d, wanted, tasks, ran, oracle);
            && (r.result.Ok? <==>
                |d.params| == 1 && (IsWanted(wanted, d) ==> StorageFine(d, ran, oracle)))
            && (r.result.Ok? ==>
                  && r.result.value == Consume(wanted, d.params[0])
                  && r.ran == ran + OwnCommands(d, wanted))
  {
    hide ResolveStorage, AllResolvable, KnownType, FieldNames, StorageCommands, ResolvedFrom;
    if d.child.Some? {
      StorageResolvesExactly(d.child.value, ran, oracle);
    }
    SpawnedOne(d, wanted, tasks, ran, oracle);
    assert ran + [] == ran;
  }

  /** All initialisations are started exactly when the storage directives are fine. */
  lemma {:induction false} SpawnsExactly(ds: seq<Directive>, wanted: Option<set<string>>,
                                         tasks: seq<Started>, ran: seq<Command>, oracle: Oracle)
    ensures SpawnAll(ds, wanted, tasks, ran, oracle).result.Ok? <==>
            SelectionFine(ds, wanted, ran, oracle)
    ensures SpawnAll(ds, wanted, tasks, ran, oracle).result.Ok? && wanted.Some? ==>
              SpawnAll(ds, wanted, tasks, ran, oracle).result.value ==
              Some(wanted.value - NamesIn(ds))
    decreases |ds|
  {
    hide SpawnOne, SelectionFine, OwnCommands, StorageFine, IsWanted;
    if ds == [] {
      NothingSelected(wanted, ran, oracle);
    } else {
      var first := SpawnOne(ds[0], wanted, tasks, ran, oracle);
      SpawnsOne(ds[0], wanted, tasks, ran, oracle);
      if |ds[0].params| == 1 {
        SelectionThen(ds, wanted, ran, oracle);
        if first.result.Ok? {
          SpawnsExactly(ds[1..], first.result.value, first.tasks, first.ran, oracle);
          if wanted.Some? {
            var name := ds[0].params[0];
            assert NamesIn(ds) == {name} + NamesIn(ds[1..]);
            assert wanted.value - {name} - NamesIn(ds[1..]) == wanted.value - NamesIn(ds);
          }
        }
      } else {
        NamelessIsNotFine(ds, wanted, ran, oracle);
      }
    }
  }

  lemma {:induction false} NothingSelected(wanted: Option<set<string>>, ran: seq<Command>,
                                           oracle: Oracle)
    ensures SelectionFine([], wanted, ran, oracle)
    ensures wanted.Some? ==> wanted.value - NamesIn([]) == wanted.value
  {
  }

  lemma {:induction false} NamelessIsNotFine(ds: seq<Directive>, wanted: Option<set<string>>,
                                             ran: seq<Command>, oracle: Oracle)
    requires ds != [] && |ds[0].params| != 1
    ensures !SelectionFine(ds, wanted, ran, oracle)
  {
  }

  /** All initialisations started after all commands: what the program means to do. */
  predicate CommandsFirst(tasks: seq<Started>, total: nat) {
    forall i | 0 <= i < |tasks| :: tasks[i].commandsRun == total
  }

  lemma {:induction false} CommandsRunBetween(ds: seq<Directive>, tasks: seq<Started>,
                                              ran: seq<Command>, oracle: Oracle)
    requires OneEach(ds, tasks, ran, oracle)
    ensures |tasks| == |ds|
    ensures forall i | 0 <= i < |tasks| ::
              |ran| <= tasks[i].commandsRun <= |ran + AllCommands(ds)|
    decreases |ds|
  {
    hide StorageCommands, ResolvedFrom, SingleParam;
    if ds != [] {
      var next := ran + StorageCommands(ds[0].child.value);
      CommandsRunBetween(ds[1..], tasks[1..], next, oracle);
      assert ran + AllCommands(ds) == next + AllCommands(ds[1..]);
      assert forall i | 0 < i < |tasks| :: tasks[i] == tasks[1..][i - 1];
    }
  }

  /** The first initialisation is started after the commands of the first directive. */
  lemma {:induction false} FirstStarted(ds: seq<Directive>, tasks: seq<Started>,
                                        ran: seq<Command>, oracle: Oracle)
    requires OneEach(ds, tasks, ran, oracle) && ds != []
    ensures tasks != [] && ds[0].child.Some?
    ensures var own := ran + StorageCommands(ds[0].child.value);
            && tasks[0].commandsRun == |own|
            && OneEach(ds[1..], tasks[1..], own, oracle)
            && own <= ran + AllCommands(ds)
  {
    hide StorageCommands, ResolvedFrom, SingleParam;
    assert ran + AllCommands(ds) ==
           ran + StorageCommands(ds[0].child.value) + AllCommands(ds[1..]);
  }

  /** The commands are meant to be run before any storage is initialised. They are exactly when no
      command is run but those of the first storage, for initialisations start inside the loop that
      runs the commands; whether or not something fails on the way. */
  lemma {:induction false} CommandsBeforeInitialisationExactly(ds: seq<Directive>,
                                                               wanted: Option<set<string>>,
                                                               oracle: Oracle)
    ensures var r := SpawnAll(ds, wanted, [], [], oracle);
            var selected := Selected(ds, wanted);
            && (r.tasks != [] ==> selected != [] && selected[0].child.Some?)
            && (CommandsFirst(r.tasks, |r.ran|) <==>
                r.tasks == [] || r.ran == StorageCommands(selected[0].child.value))
            && (r.result.Ok? ==>
                  (CommandsFirst(r.tasks, |r.ran|) <==>
                   selected == [] || AllCommands(selected[1..]) == []))
  {
    hide *;
    var r := SpawnAll(ds, wanted, [], [], oracle);
    var selected := Selected(ds, wanted);
    StartedExactly(ds, wanted, [], [], oracle);
    if r.tasks == [] {
      NoneStarted(r, selected, oracle);
    } else {
      FirstIsStarted(r, selected, oracle);
      FirstCommandsOnly(r, StorageCommands(selected[0].child.value));
    }
  }

  lemma {:induction false} NoneStarted(r: Spawning, selected: seq<Directive>, oracle: Oracle)
    requires Starts(r, selected, [], [], oracle) && r.tasks == []
    ensures r.result.Ok? ==> selected == []
    ensures CommandsFirst(r.tasks, |r.ran|)
  {
  }

  /** All initialisations come after all commands exactly if there are no commands but those before
      the first. */
  lemma {:induction false} FirstCommandsOnly(r: Spawning, own: seq<Command>)
    requires r.tasks != [] && r.tasks[0].commandsRun == |own| && own <= r.ran
    requires forall i | 0 <= i < |r.tasks| :: |own| <= r.tasks[i].commandsRun <= |r.ran|
    ensures CommandsFirst(r.tasks, |r.ran|) <==> r.ran == own
  {
  }

  lemma {:induction false} FirstIsStarted(r: Spawning, selected: seq<Directive>, oracle: Oracle)
    requires Starts(r, selected, [], [], oracle) && r.tasks != []
    ensures selected != [] && selected[0].child.Some?
    ensures var own := StorageCommands(selected[0].child.value);
            && r.tasks[0].commandsRun == |own| && own <= r.ran
            && (forall i | 0 <= i < |r.tasks| :: |own| <= r.tasks[i].commandsRun <= |r.ran|)
            && (r.result.Ok? ==> (r.ran == own <==> AllCommands(selected[1..]) == []))
  {
    hide OneEach, StorageCommands;
    var n := |r.tasks|;
    var started := selected[..n];
    assert r.tasks[0..] == r.tasks && started[0] == selected[0];
    FirstStarted(started, r.tasks, [], oracle);
    var own := StorageCommands(selected[0].child.value);
    assert [] + own == own && [] + AllCommands(started) == AllCommands(started);
    CommandsRunBetween(started[1..], r.tasks[1..], own, oracle);
    assert own + AllCommands(started[1..]) == AllCommands(started);
    assert forall i | 0 < i < n :: r.tasks[i] == r.tasks[1..][i - 1];
    if r.result.Ok? {
      assert started == selected && r.ran == own + AllCommands(selected[1..]);
    }
  }

  // ---- A file for which they are not ----------------------------------------------------------

  function WebcalStorage(name: string, url: Directive): Directive {
    Directive([name], Some(Block(map["type" := [Plain("webcal")], "url" := [url]])))
  }

  lemma {:induction false} WebcalCommands(name: string, url: Directive, ran: seq<Command>,
                                          oracle: Oracle)
    requires url == Plain("x") ||
             url == Directive([], Some(Block(map["cmd" := [Plain("fetch")]])))
    requires forall before, cmd :: oracle(before, cmd) == Completed(0, Some("x"))
    ensures var d := WebcalStorage(name, url);
            && ResolveStorage(d.child.value, ran, oracle).result.Ok?
            && |StorageCommands(d.child.value)| == if url.params == [] then 1 else 0
  {
    var b := WebcalStorage(name, url).child.value;
    assert TypeOf(b) == Ok("webcal");
    assert Fields(b) == Ok(["url"]);
    assert ["url"][1..] == [];
    if url.params == [] {
      var inner := url.child.value;
      assert SingleDirective(inner, "cmd") == Ok(Some(Plain("fetch")));
      assert FieldCommand(url) == Ok(Some(Command("fetch", ["fetch"][1..])));
    } else {
      assert FieldCommand(url) == Ok(None);
    }
    assert ResolveField(b, "url", ran, oracle).result.Ok?;
    assert FieldCommands(b, "url") == (match FieldCommand(url)
                                       case Ok(Some(cmd)) => [cmd]
                                       case _ => []);
    assert CommandsOf(b, []) == [];
  }

  /** Of two storages the second has its address from a command: that command is run after the first
      initialisation was started. */
  lemma {:induction false} SecondCommandIsLate() returns (ds: seq<Directive>, oracle: Oracle)
    ensures var r := SpawnAll(ds, None, [], [], oracle);
            r.result.Ok? && |r.tasks| == 2 && !CommandsFirst(r.tasks, |r.ran|)
  {
    var fetched := Directive([], Some(Block(map["cmd" := [Plain("fetch")]])));
    var a, b := WebcalStorage("a", Plain("x")), WebcalStorage("b", fetched);
    ds := [a, b];
    oracle := (_, _) => Completed(0, Some("x"));
    assert SingleParam(a) == Ok("a") && SingleParam(b) == Ok("b");
    WebcalCommands("a", Plain("x"), [], oracle);
    var ra := ResolveStorage(a.child.value, [], oracle);
    WebcalCommands("b", fetched, ra.ran, oracle);
    var rb := ResolveStorage(b.child.value, ra.ran, oracle);
    StorageResolved(b.child.value, ra.ran, oracle);
    hide ResolveStorage, WebcalStorage, SingleParam, StorageCommands, ResolvedFrom;
    var first := SpawnOne(a, None, [], [], oracle);
    assert first.result.Ok? && first.tasks == [Started("a", ra.block, |ra.ran|)];
    var second := SpawnOne(b, None, first.tasks, first.ran, oracle);
    assert second.result.Ok? && |second.tasks| == 2 && second.tasks[0] == first.tasks[0];
    assert ds[1..] == [b] && [b][1..] == [];
    assert SpawnAll([b], None, first.tasks, first.ran, oracle) ==
           Spawning(Ok(None), second.tasks, second.ran);
    var r := SpawnAll(ds, None, [], [], oracle);
    assert r.tasks[0].commandsRun < |r.ran|;
  }
}
