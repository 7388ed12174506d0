/** Selecting pairs and storages from the configuration, and resolving commands in it. */
module Config {
  import opened Wrappers
  import opened ScfgBlocks
  import opened Cli

  datatype StorageError =
    | NoType
    | NoTypeParameter
    | UnknownType(type_: string)
    | InField(field: string, error: Error)

  datatype ConfigError =
    | InBlock(error: Error)
    | DuplicatePair(name: string)
    | PairWithoutBlock(name: string)
    | NoStorageDirective(name: string, key: string)
    | NoStorageParameter(name: string, key: string)
    | MissingPair(names: set<string>)               // the message names one of them
    | MissingStorage(names: set<string>)
    | StorageWithoutBlock(name: string)
    | InStorage(name: string, reason: StorageError)

  datatype Config = Config(statusPath: string, pairs: map<string, Block>,
                           storages: map<string, Block>)

  // ---- Resolving one storage ------------------------------------------------------------------

  /** The fields of a storage block that may be given by a command. */
  function FieldsOf(type_: string): Option<seq<string>> {
    if type_ in ["vdir/icalendar", "vdir/vcard"] then Some(["path"])
    else if type_ in ["carddav", "caldav", "jmap/icalendar", "jmap/vcard"] then
      Some(["url", "username", "password"])
    else if type_ == "webcal" then Some(["url"])
    else None
  }

  function TypeOf(b: Block): Result<string, StorageError> {
    match b.Get("type")
    case None => Err(NoType)
    case Some(d) => if d.params == [] then Err(NoTypeParameter) else Ok(d.params[0])
  }

  function Fields(b: Block): Result<seq<string>, StorageError> {
    var type_ :- TypeOf(b);
    match FieldsOf(type_)
    case None => Err(UnknownType(type_))
    case Some(fields) => Ok(fields)
  }

  datatype StorageResolution =
    StorageResolution(result: Result<(), StorageError>, block: Block, ran: seq<Command>)

  function ResolveFields(b: Block, fields: seq<string>, ran: seq<Command>, oracle: Oracle)
    : StorageResolution
    decreases |fields|
  {
    if fields == [] then StorageResolution(Ok(()), b, ran)
    else
      var first := ResolveField(b, fields[0], ran, oracle);
      if first.result.Err? then
        StorageResolution(Err(InField(fields[0], first.result.error)), first.block, first.ran)
      else
        ResolveFields(first.block, fields[1..], first.ran, oracle)
  }

  function ResolveStorage(b: Block, ran: seq<Command>, oracle: Oracle): StorageResolution {
    match Fields(b)
    case Err(e) => StorageResolution(Err(e), b, ran)
    case Ok(fields) => ResolveFields(b, fields, ran, oracle)
  }

  method ResolveStorageCmds(storage: Scfg, shell: Shell) returns (r: Result<(), StorageError>)
    modifies storage, shell
    ensures StorageResolution(r, storage.block, shell.ran) ==
            ResolveStorage(old(storage.block), old(shell.ran), shell.oracle)
  {
    var directive := storage.block.Get("type");
    if directive.None? {
      return Err(NoType);
    }
    if directive.value.params == [] {
      return Err(NoTypeParameter);
    }
    var type_ := directive.value.params[0];
    var fields := FieldsOf(type_);
    if fields.None? {
      return Err(UnknownType(type_));
    }
    var i := 0;
    while i < |fields.value|
      invariant i <= |fields.value|
      invariant ResolveFields(storage.block, fields.value[i..], shell.ran, shell.oracle) ==
                ResolveStorage(old(storage.block), old(shell.ran), shell.oracle)
    {
      var field := fields.value[i];
      var resolved := storage.ResolveCmdInplace(field, shell);
      if resolved.Err? {
        return Err(InField(field, resolved.error));
      }
      i := i + 1;
    }
    return Ok(());
  }

  // ---- Selecting pairs ------------------------------------------------------------------------

  datatype Selection = Selection(pairs: map<string, Block>, storages: set<string>,
                                 wanted: Option<set<string>>)

  /** The storage that a pair's block names, read without consuming or checking it. */
  function FirstParam(name: string, b: Block, key: string): Result<string, ConfigError> {
    match b.Get(key)
    case None => Err(NoStorageDirective(name, key))
    case Some(d) => if d.params == [] then Err(NoStorageParameter(name, key)) else Ok(d.params[0])
  }

  function SelectPair(d: Directive, sel: Selection): Result<Selection, ConfigError> {
    match SingleParam(d)
    case Err(e) => Err(InBlock(e))
    case Ok(name) =>
      if name in sel.pairs then Err(DuplicatePair(name))
      else if !WantsName(sel.wanted, name) then Ok(sel)
      else if d.child.None? then Err(PairWithoutBlock(name))
      else
        var a :- FirstParam(name, d.child.value, "storage_a");
        var b :- FirstParam(name, d.child.value, "storage_b");
        Ok(Selection(sel.pairs[name := d.child.value], sel.storages + {a, b},
                     Consume(sel.wanted, name)))
  }

  function SelectPairs(ds: seq<Directive>, sel: Selection): Result<Selection, ConfigError> {
    if ds == [] then Ok(sel)
    else
      var sel' :- SelectPair(ds[0], sel);
      SelectPairs(ds[1..], sel')
  }

  // ---- Loading storages -----------------------------------------------------------------------

  datatype Loading = Loading(result: Result<map<string, Block>, ConfigError>, ran: seq<Command>)

  function LoadStorage(d: Directive, enabled: set<string>, storages: map<string, Block>,
                       ran: seq<Command>, oracle: Oracle): Loading
  {
    match SingleParam(d)
    case Err(e) => Loading(Err(InBlock(e)), ran)
    case Ok(name) =>
      if name !in enabled then Loading(Ok(storages), ran)
      else if d.child.None? then Loading(Err(StorageWithoutBlock(name)), ran)
      else
        var r := ResolveStorage(d.child.value, ran, oracle);
        match r.result
        case Err(e) => Loading(Err(InStorage(name, e)), r.ran)
        case Ok(_) => Loading(Ok(storages[name := r.block]), r.ran)
  }

  function LoadStorages(ds: seq<Directive>, enabled: set<string>, storages: map<string, Block>,
                        ran: seq<Command>, oracle: Oracle): Loading
  {
    if ds == [] then Loading(Ok(storages), ran)
    else
      var first := LoadStorage(ds[0], enabled, storages, ran, oracle);
      if first.result.Err? then first
      else LoadStorages(ds[1..], enabled, first.result.value, first.ran, oracle)
  }

  // ---- The whole configuration ----------------------------------------------------------------

  datatype Parsed = Parsed(result: Result<Config, ConfigError>, ran: seq<Command>)

  /** What `parse_config` makes of a parsed file, a filter, and a world. */
  function Parse(root: Block, wanted: Option<set<string>>, ran: seq<Command>, oracle: Oracle): Parsed
  {
    var status := ResolveField(root, "status_path", ran, oracle);
    if status.result.Err? then Parsed(Err(InBlock(status.result.error)), status.ran)
    else
      match SingleParamOf(status.block, "status_path")
      case Err(e) => Parsed(Err(InBlock(e)), status.ran)
      case Ok(statusPath) => ParseRest(status.block.Without("status_path"), wanted, statusPath,
                                       status.ran, oracle)
  }

  function ParseRest(root: Block, wanted: Option<set<string>>, statusPath: string,
                     ran: seq<Command>, oracle: Oracle): Parsed
  {
    match SelectPairs(root.GetAll("pair"), Selection(map[], {}, wanted))
    case Err(e) => Parsed(Err(e), ran)
    case Ok(sel) =>
      if sel.wanted.Some? && sel.wanted.value != {} then
        Parsed(Err(MissingPair(sel.wanted.value)), ran)
      else
        var loading := LoadStorages(root.GetAll("storage"), sel.storages, map[], ran, oracle);
        match loading.result
        case Err(e) => Parsed(Err(e), loading.ran)
        case Ok(storages) => Parsed(Ok(Config(statusPath, sel.pairs, storages)), loading.ran)
  }

  /** The loop over the pair directives. */
  method TakePairs(ds: seq<Directive>, filter: FilterNames)
    returns (r: Result<(map<string, Block>, set<string>), ConfigError>)
    modifies filter
    ensures var sel := SelectPairs(ds, Selection(map[], {}, old(filter.names)));
            match r
            case Err(e) => sel == Err(e)
            case Ok((pairs, storages)) => sel == Ok(Selection(pairs, storages, filter.names))
  {
    var pairs: map<string, Block>, enabledStorages: set<string> := map[], {};
    var i := 0;
    while i < |ds|
      invariant i <= |ds|
      invariant SelectPairs(ds[i..], Selection(pairs, enabledStorages, filter.names)) ==
                SelectPairs(ds, Selection(map[], {}, old(filter.names)))
    {
      var directive := ds[i];
      var name := TakeSingleParam(directive);
      if name.Err? {
        return Err(InBlock(name.error));
      }
      if name.value in pairs {
        return Err(DuplicatePair(name.value));
      }
      ghost var before := filter.names;
      var wanted := filter.Wants(name.value);
      assert !wanted ==> before.value - {name.value} == before.value;
      if wanted {
        if directive.child.None? {
          return Err(PairWithoutBlock(name.value));
        }
        var child := directive.child.value;
        var nameA := FirstParam(name.value, child, "storage_a");
        if nameA.Err? {
          return Err(nameA.error);
        }
        var nameB := FirstParam(name.value, child, "storage_b");
        if nameB.Err? {
          return Err(nameB.error);
        }
        enabledStorages := enabledStorages + {nameA.value, nameB.value};
        pairs := pairs[name.value := child];
      }
      i := i + 1;
    }
    return Ok((pairs, enabledStorages));
  }

  /** The loop over the storage directives. */
  method TakeStorages(ds: seq<Directive>, enabled: set<string>, shell: Shell)
    returns (r: Result<map<string, Block>, ConfigError>)
    modifies shell
    ensures Loading(r, shell.ran) ==
            LoadStorages(ds, enabled, map[], old(shell.ran), shell.oracle)
  {
    var storages: map<string, Block> := map[];
    var i := 0;
    while i < |ds|
      invariant i <= |ds|
      invariant LoadStorages(ds[i..], enabled, storages, shell.ran, shell.oracle) ==
                LoadStorages(ds, enabled, map[], old(shell.ran), shell.oracle)
    {
      var directive := ds[i];
      var name := TakeSingleParam(directive);
      if name.Err? {
        return Err(InBlock(name.error));
      }
      if name.value in enabled {
        if directive.child.None? {
          return Err(StorageWithoutBlock(name.value));
        }
        var child := new Scfg(directive.child.value);
        var done := ResolveStorageCmds(child, shell);
        if done.Err? {
          return Err(InStorage(name.value, done.error));
        }
        storages := storages[name.value := child.block];
      }
      i := i + 1;
    }
    return Ok(storages);
  }

  method ParseConfig(root: Scfg, filter: FilterNames, shell: Shell)
    returns (r: Result<Config, ConfigError>)
    modifies root, filter, shell
    ensures Parsed(r, shell.ran) ==
            Parse(old(root.block), old(filter.names), old(shell.ran), shell.oracle)
  {
    var resolved := root.ResolveCmdInplace("status_path", shell);
    if resolved.Err? {
      return Err(InBlock(resolved.error));
    }
    var statusPath := root.TakeSingleParamFromDirective("status_path");
    if statusPath.Err? {
      return Err(InBlock(statusPath.error));
    }
    var pairDirectives := root.Remove("pair");
    var selected := TakePairs(if pairDirectives.Some? then pairDirectives.value else [], filter);
    if selected.Err? {
      return Err(selected.error);
    }
    var missing := filter.NextMissing();
    if missing.Some? {
      return Err(MissingPair(filter.names.value));
    }
    var storageDirectives := root.Remove("storage");
    var storages := TakeStorages(if storageDirectives.Some? then storageDirectives.value else [],
                                 selected.value.1, shell);
    if storages.Err? {
      return Err(storages.error);
    }
    return Ok(Config(statusPath.value, selected.value.0, storages.value));
  }
}
