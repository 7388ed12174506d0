/** When parsing succeeds, in terms of the file. */
module ParseOutcomes {
  import opened Wrappers
  import opened ScfgBlocks
  import opened Cli
  import opened Config
  import opened ConfigTheorems
  import Text

  // ---- Storages -------------------------------------------------------------------------------

  /** The block says its type, and it is a known one. */
  predicate KnownType(b: Block) {
    && "type" in b.entries && b.entries["type"] != [] && b.entries["type"][0].params != []
    && b.entries["type"][0].params[0] in
         {"vdir/icalendar", "vdir/vcard", "carddav", "caldav", "jmap/icalendar", "jmap/vcard",
          "webcal"}
  }

  /** The fields can be resolved one after the other, after the commands `ran` and those of the fields
      before. */
  ghost predicate AllResolvable(b: Block, fields: seq<string>, ran: seq<Command>, oracle: Oracle) {
    forall i | 0 <= i < |fields| ::
      Resolvable(b, fields[i], ran + CommandsOf(b, fields[..i]), oracle)
  }

  /** The directive defines a storage of a known type, whose fields can be resolved. */
  ghost predicate StorageFine(d: Directive, ran: seq<Command>, oracle: Oracle) {
    && d.child.Some? && KnownType(d.child.value)
    && AllResolvable(d.child.value, FieldNames(d.child.value), ran, oracle)
  }

  function FieldNames(b: Block): seq<string> {
    match Fields(b) case Ok(fields) => fields case Err(_) => []
  }

  lemma {:induction false} KnownExactly(b: Block)
    ensures Fields(b).Ok? <==> KnownType(b)
  {
  }

  lemma {:induction false} ResolvableElsewhere(b: Block, b1: Block, first: string, field: string,
                                               ran: seq<Command>, oracle: Oracle)
    requires SameExcept(b, b1, [first]) && field != first
    ensures Resolvable(b, field, ran, oracle) <==> Resolvable(b1, field, ran, oracle)
  {
    hide GivesCommand, Outputs;
    assert field !in [first];
  }

  lemma {:induction false} ResolvableThen(b: Block, b1: Block, fields: seq<string>,
                                          ran: seq<Command>, oracle: Oracle)
    requires fields != [] && fields[0] !in fields[1..] && SameExcept(b, b1, [fields[0]])
    ensures AllResolvable(b, fields, ran, oracle) <==>
            Resolvable(b, fields[0], ran, oracle) &&
            AllResolvable(b1, fields[1..], ran + FieldCommands(b, fields[0]), oracle)
  {
    hide Resolvable, FieldCommands, SameExcept;
    assert ran + CommandsOf(b, fields[..0]) == ran;
    forall i | 0 < i < |fields|
      ensures Resolvable(b, fields[i], ran + CommandsOf(b, fields[..i]), oracle) <==>
              Resolvable(b1, fields[1..][i - 1],
                         ran + FieldCommands(b, fields[0]) + CommandsOf(b1, fields[1..][..i - 1]),
                         oracle)
    {
      CommandsAfterFirst(b, b1, fields, ran, i);
      assert fields[1..][i - 1] == fields[i] && fields[i] in fields[1..];
      ResolvableElsewhere(b, b1, fields[0], fields[i], ran + CommandsOf(b, fields[..i]), oracle);
    }
    hide CommandsOf;
    ResolvableSplit(b, b1, fields, ran, oracle);
  }

  /** All but the first are all of the rest. */
  lemma {:induction false} ResolvableSplit(b: Block, b1: Block, fields: seq<string>,
                                           ran: seq<Command>, oracle: Oracle)
    requires fields != [] && ran + CommandsOf(b, fields[..0]) == ran
    requires forall i | 0 < i < |fields| ::
               Resolvable(b, fields[i], ran + CommandsOf(b, fields[..i]), oracle) <==>
               Resolvable(b1, fields[1..][i - 1],
                          ran + FieldCommands(b, fields[0]) + CommandsOf(b1, fields[1..][..i - 1]),
                          oracle)
    ensures AllResolvable(b, fields, ran, oracle) <==>
            Resolvable(b, fields[0], ran, oracle) &&
            AllResolvable(b1, fields[1..], ran + FieldCommands(b, fields[0]), oracle)
  {
    hide Resolvable, FieldCommands, CommandsOf;
    var own := ran + FieldCommands(b, fields[0]);
    if Resolvable(b, fields[0], ran, oracle) && AllResolvable(b1, fields[1..], own, oracle) {
      forall i | 0 <= i < |fields|
        ensures Resolvable(b, fields[i], ran + CommandsOf(b, fields[..i]), oracle)
      {
        if i > 0 {
          assert Resolvable(b1, fields[1..][i - 1], own + CommandsOf(b1, fields[1..][..i - 1]), oracle);
        }
      }
    }
    if AllResolvable(b, fields, ran, oracle) {
      assert Resolvable(b, fields[0], ran + CommandsOf(b, fields[..0]), oracle);
      forall i | 0 <= i < |fields[1..]|
        ensures Resolvable(b1, fields[1..][i], own + CommandsOf(b1, fields[1..][..i]), oracle)
      {
        assert Resolvable(b, fields[i + 1], ran + CommandsOf(b, fields[..i + 1]), oracle);
        assert (i + 1) - 1 == i;
      }
    }
  }

  lemma {:induction false} FieldsResolveExactly(b: Block, fields: seq<string>, ran: seq<Command>,
                                                oracle: Oracle)
    requires forall i, j | 0 <= i < j < |fields| :: fields[i] != fields[j]
    ensures ResolveFields(b, fields, ran, oracle).result.Ok? <==>
            AllResolvable(b, fields, ran, oracle)
    decreases |fields|
  {
    hide ResolveField, FieldCommands, AllResolvable, Resolvable;
    if fields == [] {
      NothingToResolve(b, ran, oracle);
    } else {
      var first := ResolveField(b, fields[0], ran, oracle);
      FieldResolved(b, fields[0], ran, oracle);
      ResolvesExactly(b, fields[0], ran, oracle);
      assert fields[0] !in fields[1..];
      ResolvableThen(b, first.block, fields, ran, oracle);
      if first.result.Ok? {
        FieldsResolveExactly(first.block, fields[1..], first.ran, oracle);
      }
    }
  }

  lemma {:induction false} NothingToResolve(b: Block, ran: seq<Command>, oracle: Oracle)
    ensures AllResolvable(b, [], ran, oracle)
  {
  }

  /** A storage's commands resolve exactly when its type is known and its fields can be resolved. */
  lemma {:induction false} StorageResolvesExactly(b: Block, ran: seq<Command>, oracle: Oracle)
    ensures ResolveStorage(b, ran, oracle).result.Ok? <==>
            KnownType(b) && AllResolvable(b, FieldNames(b), ran, oracle)
  {
    hide ResolveFields, AllResolvable;
    KnownExactly(b);
    if Fields(b).Ok? {
      DistinctFields(b);
      FieldsResolveExactly(b, Fields(b).value, ran, oracle);
    }
    hide KnownType, Fields;
  }

  /** Every storage directive has one name, and every enabled one is fine after the commands of the
      enabled ones before it. */
  ghost predicate StoragesFine(ds: seq<Directive>, enabled: set<string>, ran: seq<Command>,
                               oracle: Oracle)
  {
    forall i | 0 <= i < |ds| ::
      && |ds[i].params| == 1
      && (ds[i].params[0] in enabled ==>
            StorageFine(ds[i], ran + EnabledCommands(ds[..i], enabled), oracle))
  }

  lemma {:induction false} StoragesThen(ds: seq<Directive>, enabled: set<string>,
                                        ran: seq<Command>, oracle: Oracle)
    requires ds != []
    ensures StoragesFine(ds, enabled, ran, oracle) <==>
            && |ds[0].params| == 1
            && (ds[0].params[0] in enabled ==> StorageFine(ds[0], ran, oracle))
            && StoragesFine(ds[1..], enabled, ran + CommandsHere(ds[0], enabled), oracle)
  {
    hide StorageFine, CommandsHere;
    var own := ran + CommandsHere(ds[0], enabled);
    assert ran + EnabledCommands(ds[..0], enabled) == ran;
    forall i | 0 < i < |ds|
      ensures ran + EnabledCommands(ds[..i], enabled) ==
              own + EnabledCommands(ds[1..][..i - 1], enabled)
      ensures ds[1..][i - 1] == ds[i]
    {
      assert ds[..i][0] == ds[0] && ds[..i][1..] == ds[1..][..i - 1];
    }
    hide EnabledCommands;
    if StoragesFine(ds, enabled, ran, oracle) {
      forall i | 0 <= i < |ds[1..]|
        ensures |ds[1..][i].params| == 1
        ensures ds[1..][i].params[0] in enabled ==>
                  StorageFine(ds[1..][i], own + EnabledCommands(ds[1..][..i], enabled), oracle)
      {
        assert ds[1..][i] == ds[i + 1] && (i + 1) - 1 == i;
      }
      assert |ds[0].params| == 1;
    }
    if |ds[0].params| == 1 && (ds[0].params[0] in enabled ==> StorageFine(ds[0], ran, oracle))
       && StoragesFine(ds[1..], enabled, own, oracle) {
      forall i | 0 <= i < |ds|
        ensures |ds[i].params| == 1
        ensures ds[i].params[0] in enabled ==>
                  StorageFine(ds[i], ran + EnabledCommands(ds[..i], enabled), oracle)
      {
        if i > 0 {
          assert |ds[1..][i - 1].params| == 1;
        }
      }
    }
  }

  lemma {:induction false} OneLoads(d: Directive, enabled: set<string>,
                                    storages: map<string, Block>, ran: seq<Command>,
                                    oracle: Oracle)
    ensures LoadStorage(d, enabled, storages, ran, oracle).result.Ok? <==>
            && |d.params| == 1
            && (d.params[0] in enabled ==> StorageFine(d, ran, oracle))
  {
    hide ResolveStorage, AllResolvable, KnownType, FieldNames;
    if d.child.Some? {
      StorageResolvesExactly(d.child.value, ran, oracle);
    }
  }

  lemma {:induction false} LoadsExactly(ds: seq<Directive>, enabled: set<string>,
                                        storages: map<string, Block>, ran: seq<Command>,
                                        oracle: Oracle)
    ensures LoadStorages(ds, enabled, storages, ran, oracle).result.Ok? <==>
            StoragesFine(ds, enabled, ran, oracle)
  {
    hide LoadStorage, StorageFine, CommandsHere;
    if ds != [] {
      hide StoragesFine;
      var first := LoadStorage(ds[0], enabled, storages, ran, oracle);
      OneLoads(ds[0], enabled, storages, ran, oracle);
      OneCommands(ds[0], enabled, storages, ran, oracle);
      StoragesThen(ds, enabled, ran, oracle);
      if first.result.Ok? {
        LoadsExactly(ds[1..], enabled, first.result.value, first.ran, oracle);
      }
    }
  }

  // ---- Pairs ----------------------------------------------------------------------------------

  /** The first directive of this name has a parameter. */
  predicate Names(b: Block, key: string) {
    key in b.entries && b.entries[key] != [] && b.entries[key][0].params != []
  }

  /** The directive has a block that names two storages. */
  predicate NamesTwo(d: Directive) {
    d.child.Some? && Names(d.child.value, "storage_a") && Names(d.child.value, "storage_b")
  }

  predicate IsWanted(wanted: Option<set<string>>, d: Directive) {
    d.params != [] && (wanted.None? || d.params[0] in wanted.value)
  }

  /** Every pair directive has one name, none of them that of a pair among `taken` or of a wanted one
      before it, and every wanted one names two storages. */
  ghost predicate PairsFine(ds: seq<Directive>, wanted: Option<set<string>>, taken: set<string>) {
    && (forall i | 0 <= i < |ds| ::
          && |ds[i].params| == 1 && ds[i].params[0] !in taken
          && (IsWanted(wanted, ds[i]) ==> NamesTwo(ds[i])))
    && (forall i, j | 0 <= i < j < |ds| :: ds[i].params == ds[j].params ==> !IsWanted(wanted, ds[i]))
  }

  /** The storages that the wanted directives name. */
  function NamedBy(ds: seq<Directive>, wanted: Option<set<string>>): set<string> {
    if ds == [] then {}
    else
      (if IsWanted(wanted, ds[0]) && NamesTwo(ds[0]) then
         {ds[0].child.value.entries["storage_a"][0].params[0],
          ds[0].child.value.entries["storage_b"][0].params[0]}
       else {}) + NamedBy(ds[1..], wanted)
  }

  lemma {:induction false} SelectsOne(d: Directive, sel: Selection)
    ensures SelectPair(d, sel).Ok? <==>
            && |d.params| == 1 && d.params[0] !in sel.pairs
            && (IsWanted(sel.wanted, d) ==> NamesTwo(d))
    ensures SelectPair(d, sel).Ok? ==>
              var sel' := SelectPair(d, sel).value;
              && sel'.pairs.Keys == sel.pairs.Keys +
                                    (if IsWanted(sel.wanted, d) then {d.params[0]} else {})
              && sel'.wanted == Consume(sel.wanted, d.params[0])
              && sel'.storages == sel.storages +
                   (if IsWanted(sel.wanted, d) then
                      {d.child.value.entries["storage_a"][0].params[0],
                       d.child.value.entries["storage_b"][0].params[0]}
                    else {})
  {
    if |d.params| == 1 && sel.wanted.Some? && d.params[0] !in sel.wanted.value {
      assert sel.wanted.value - {d.params[0]} == sel.wanted.value;
    }
  }

  lemma {:induction false} WantedLater(wanted: Option<set<string>>, d: Directive, e: Directive)
    requires |d.params| == 1 && |e.params| == 1
    requires d.params == e.params ==> !IsWanted(wanted, d)
    ensures IsWanted(Consume(wanted, d.params[0]), e) <==> IsWanted(wanted, e)
  {
  }

  lemma {:induction false} PairsThen(ds: seq<Directive>, wanted: Option<set<string>>,
                                     taken: set<string>)
    requires ds != []
    ensures PairsFine(ds, wanted, taken) <==>
            && |ds[0].params| == 1 && ds[0].params[0] !in taken
            && (IsWanted(wanted, ds[0]) ==> NamesTwo(ds[0]))
            && PairsFine(ds[1..], Consume(wanted, ds[0].params[0]),
                         taken + if IsWanted(wanted, ds[0]) then {ds[0].params[0]} else {})
  {
    hide NamesTwo;
    if |ds[0].params| == 1 {
      var wanted' := Consume(wanted, ds[0].params[0]);
      var taken' := taken + if IsWanted(wanted, ds[0]) then {ds[0].params[0]} else {};
      if PairsFine(ds, wanted, taken) {
        forall i | 0 <= i < |ds[1..]|
          ensures |ds[1..][i].params| == 1 && ds[1..][i].params[0] !in taken'
          ensures IsWanted(wanted', ds[1..][i]) <==> IsWanted(wanted, ds[i + 1])
        {
          assert ds[1..][i] == ds[i + 1];
          SameName(ds[0], ds[i + 1]);
          WantedLater(wanted, ds[0], ds[i + 1]);
        }
        hide IsWanted;
      }
      if ds[0].params[0] !in taken && (IsWanted(wanted, ds[0]) ==> NamesTwo(ds[0]))
         && PairsFine(ds[1..], wanted', taken') {
        forall j | 0 < j < |ds|
          ensures |ds[j].params| == 1 && ds[j].params[0] !in taken
          ensures ds[0].params == ds[j].params ==> !IsWanted(wanted, ds[0])
          ensures IsWanted(wanted', ds[j]) <==> IsWanted(wanted, ds[j])
          ensures IsWanted(wanted, ds[j]) ==> NamesTwo(ds[j])
        {
          assert ds[1..][j - 1] == ds[j];
          SameName(ds[0], ds[j]);
          WantedLater(wanted, ds[0], ds[j]);
        }
        forall i, j | 0 <= i < j < |ds|
          ensures ds[i].params == ds[j].params ==> !IsWanted(wanted, ds[i])
        {
          if i > 0 {
            assert ds[1..][i - 1] == ds[i] && ds[1..][j - 1] == ds[j];
          }
        }
      }
    }
  }

  lemma {:induction false} SameName(d: Directive, e: Directive)
    requires |d.params| == 1 && |e.params| == 1
    ensures d.params == e.params <==> d.params[0] == e.params[0]
  {
  }

  lemma {:induction false} NamedLater(ds: seq<Directive>, wanted: Option<set<string>>, d: Directive)
    requires |d.params| == 1
    requires forall e | e in ds ::
               |e.params| == 1 && (d.params == e.params ==> !IsWanted(wanted, d))
    ensures NamedBy(ds, Consume(wanted, d.params[0])) == NamedBy(ds, wanted)
  {
    hide NamesTwo;
    if ds != [] {
      WantedLater(wanted, d, ds[0]);
      NamedLater(ds[1..], wanted, d);
    }
  }

  /** Selecting succeeds exactly when the directives are fine, and enables exactly the storages that the
      wanted ones name. */
  lemma {:induction false} SelectsExactly(ds: seq<Directive>, sel: Selection)
    ensures SelectPairs(ds, sel).Ok? <==> PairsFine(ds, sel.wanted, sel.pairs.Keys)
    ensures SelectPairs(ds, sel).Ok? ==>
              SelectPairs(ds, sel).value.storages == sel.storages + NamedBy(ds, sel.wanted)
  {
    if ds != [] {
      hide SelectPair, NamesTwo;
      SelectsOne(ds[0], sel);
      PairsThen(ds, sel.wanted, sel.pairs.Keys);
      if SelectPair(ds[0], sel).Ok? {
        var sel' := SelectPair(ds[0], sel).value;
        SelectsExactly(ds[1..], sel');
        if SelectPairs(ds, sel).Ok? {
          assert forall e | e in ds[1..] :: exists j :: 0 < j < |ds| && ds[j] == e by {
            assert forall j | 0 <= j < |ds[1..]| :: ds[1..][j] == ds[j + 1];
          }
          NamedLater(ds[1..], sel.wanted, ds[0]);
        }
      }
    }
  }

  // ---- The whole file -------------------------------------------------------------------------

  /** The file can be parsed: the status path is given and can be resolved; the pair directives are
      fine; every requested name is defined; and the storage directives are fine, with those enabled
      that the wanted pairs name, after the status path's command. */
  ghost predicate Parseable(root: Block, wanted: Option<set<string>>, ran: seq<Command>,
                            oracle: Oracle)
  {
    var pairs, storages := root.GetAll("pair"), root.GetAll("storage");
    && "status_path" in root.entries && Resolvable(root, "status_path", ran, oracle)
    && PairsFine(pairs, wanted, {})
    && (wanted.Some? ==> forall name | name in wanted.value ::
                           exists d :: d in pairs && d.params == [name])
    && StoragesFine(storages, NamedBy(pairs, wanted), ran + FieldCommands(root, "status_path"),
                    oracle)
  }

  /** The one directive of this name has, or its command gives, this value. */
  ghost predicate HasValue(b: Block, name: string, value: string, ran: seq<Command>,
                           oracle: Oracle)
  {
    && name in b.entries && |b.entries[name]| == 1
    && var d := b.entries[name][0];
       || d.params == [value]
       || (d.params == [] && exists cmd, text ::
             GivesCommand(d, cmd) && Outputs(name, oracle(ran, cmd), text)
             && value == Text.Trim(text))
  }

  lemma {:induction false} NamesDefined(ds: seq<Directive>, name: string)
    ensures name in NamesIn(ds) <==> exists d :: d in ds && d.params == [name]
  {
    if ds != [] {
      NamesDefined(ds[1..], name);
      assert ds == [ds[0]] + ds[1..];
      assert SingleParam(ds[0]) == Ok(name) <==> ds[0].params == [name];
      hide SingleParam;
    }
  }

  lemma {:induction false} AllDefined(ds: seq<Directive>, wanted: set<string>)
    ensures wanted - NamesIn(ds) == {} <==>
            forall name | name in wanted :: exists d :: d in ds && d.params == [name]
  {
    forall name ensures name in NamesIn(ds) <==> exists d :: d in ds && d.params == [name] {
      NamesDefined(ds, name);
    }
    hide NamesIn;
    if wanted - NamesIn(ds) == {} {
      forall name | name in wanted ensures name in NamesIn(ds) {
        assert name !in wanted - NamesIn(ds);
      }
    }
  }

  lemma {:induction false} StatusValue(root: Block, ran: seq<Command>, oracle: Oracle)
    ensures var r := ResolveField(root, "status_path", ran, oracle);
            r.result.Ok? ==>
              (SingleParamOf(r.block, "status_path").Ok? <==> "status_path" in root.entries)
              && ("status_path" in root.entries ==>
                    HasValue(root, "status_path", SingleParamOf(r.block, "status_path").value, ran,
                             oracle))
  {
    hide GivesCommand, Outputs, Text.Trim;
    ResolvesExactly(root, "status_path", ran, oracle);
    hide ResolveField;
  }

  lemma {:induction false} RestParses(root: Block, wanted: Option<set<string>>, path: string,
                                      ran: seq<Command>, oracle: Oracle)
    ensures var r := ParseRest(root, wanted, path, ran, oracle).result;
            var pairs, storages := root.GetAll("pair"), root.GetAll("storage");
            && (r.Ok? <==>
                  && PairsFine(pairs, wanted, {})
                  && (wanted.Some? ==> forall name | name in wanted.value ::
                                         exists d :: d in pairs && d.params == [name])
                  && StoragesFine(storages, NamedBy(pairs, wanted), ran, oracle))
            && (r.Ok? ==> r.value.statusPath == path)
  {
    var pairs := root.GetAll("pair");
    var none := Selection(map[], {}, wanted);
    hide SelectPairs, LoadStorages, NamedBy, NamesIn, PairsFine, StoragesFine;
    SelectsExactly(pairs, none);
    assert none.pairs.Keys == {};
    if SelectPairs(pairs, none).Ok? {
      SelectedNames(pairs, none);
      if wanted.Some? {
        AllDefined(pairs, wanted.value);
      }
      assert {} + NamedBy(pairs, wanted) == NamedBy(pairs, wanted);
      LoadsExactly(root.GetAll("storage"), NamedBy(pairs, wanted), map[], ran, oracle);
    }
  }

  /** Parsing succeeds exactly when the file can be parsed, and the status path is then the parameter of
      its directive or the trimmed output of its command. */
  lemma {:induction false} ParsesExactly(root: Block, wanted: Option<set<string>>,
                                         ran: seq<Command>, oracle: Oracle)
    ensures var r := Parse(root, wanted, ran, oracle).result;
            && (r.Ok? <==> Parseable(root, wanted, ran, oracle))
            && (r.Ok? ==> HasValue(root, "status_path", r.value.statusPath, ran, oracle))
  {
    hide ResolveField, ParseRest, Resolvable, FieldCommands, HasValue, PairsFine, StoragesFine,
         NamedBy, SingleParamOf;
    var status := ResolveField(root, "status_path", ran, oracle);
    FieldResolved(root, "status_path", ran, oracle);
    ResolvesExactly(root, "status_path", ran, oracle);
    StatusValue(root, ran, oracle);
    hide FieldFrom, Resolved;
    if status.result.Ok? && "status_path" in root.entries {
      var rest := status.block.Without("status_path");
      assert rest.GetAll("pair") == root.GetAll("pair");
      assert rest.GetAll("storage") == root.GetAll("storage");
      RestParses(rest, wanted, SingleParamOf(status.block, "status_path").value, status.ran, oracle);
    }
  }
}
