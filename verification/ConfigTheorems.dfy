/** What the parsed configuration is, in terms of the file. */
module ConfigTheorems {
  import opened Wrappers
  import opened ScfgBlocks
  import opened Cli
  import opened Config

  /** The names that the directives define. */
  function NamesIn(ds: seq<Directive>): set<string> {
    if ds == [] then {}
    else (if SingleParam(ds[0]).Ok? then {SingleParam(ds[0]).value} else {}) + NamesIn(ds[1..])
  }

  // ---- A filter is a restriction of the file --------------------------------------------------

  /** The directives whose name is in `names`, and those that have no proper name. */
  function KeepOnly(ds: seq<Directive>, names: set<string>): seq<Directive> {
    if ds == [] then []
    else
      var rest := KeepOnly(ds[1..], names);
      if SingleParam(ds[0]).Ok? && SingleParam(ds[0]).value !in names then rest
      else [ds[0]] + rest
  }

  /** The file without the pair directives that define other pairs. */
  function Restrict(root: Block, names: set<string>): Block {
    if "pair" in root.entries then
      Block(root.entries["pair" := KeepOnly(root.entries["pair"], names)])
    else root
  }

  lemma {:induction false} FilteredSelection(ds: seq<Directive>, pairs: map<string, Block>,
                                             storages: set<string>, left: set<string>,
                                             names: set<string>)
    requires pairs.Keys !! left && names == pairs.Keys + left
    ensures var filtered := SelectPairs(ds, Selection(pairs, storages, Some(left)));
            var restricted := SelectPairs(KeepOnly(ds, names), Selection(pairs, storages, None));
            if filtered.Ok? then
              && restricted == Ok(filtered.value.(wanted := None))
              && filtered.value.wanted == Some(left - NamesIn(ds))
            else restricted == filtered
  {
    if ds == [] {
      assert left - NamesIn(ds) == left;
    } else {
      var sel := Selection(pairs, storages, Some(left));
      var one := SelectPair(ds[0], sel);
      var name := SingleParam(ds[0]);
      if name.Err? || name.value in names {
        assert KeepOnly(ds, names) == [ds[0]] + KeepOnly(ds[1..], names);
        assert KeepOnly(ds, names)[1..] == KeepOnly(ds[1..], names);
        assert SelectPair(ds[0], sel.(wanted := None)) ==
               if one.Err? then one else Ok(one.value.(wanted := None));
      }
      if one.Ok? {
        var left' := left - {name.value};
        assert name.value !in names ==> left' == left;
        FilteredSelection(ds[1..], one.value.pairs, one.value.storages, left', names);
        assert left' - NamesIn(ds[1..]) == left - NamesIn(ds);
      }
    }
  }

  lemma {:induction false} RestrictCommutes(root: Block, names: set<string>, key: string,
                                            ran: seq<Command>, oracle: Oracle)
    requires key != "pair"
    ensures var r := ResolveField(root, key, ran, oracle);
            ResolveField(Restrict(root, names), key, ran, oracle) ==
            Resolution(r.result, Restrict(r.block, names), r.ran)
    ensures Restrict(root, names).Without(key) == Restrict(root.Without(key), names)
    ensures SingleParamOf(Restrict(root, names), key) == SingleParamOf(root, key)
  {
    hide KeepOnly, FieldCommand, OutputValue;
    var rest := Restrict(root, names).Without(key);
    assert rest.entries == Restrict(root.Without(key), names).entries;
    forall d: Directive ensures rest.Add(key, d) == Restrict(root.Without(key).Add(key, d), names) {
      assert rest.Add(key, d).entries == Restrict(root.Without(key).Add(key, d), names).entries;
    }
  }

  /** Asking for some pairs, all of them defined, gives exactly what reading everything gives on the
      file without the other pairs: the same pairs and storages, the same commands run, and the same
      error if there is one, duplicate definitions included. */
  lemma {:induction false} FilteringIsRestriction(root: Block, names: set<string>,
                                                  ran: seq<Command>, oracle: Oracle)
    requires names <= NamesIn(root.GetAll("pair"))
    ensures Parse(root, Some(names), ran, oracle) == Parse(Restrict(root, names), None, ran, oracle)
  {
    hide ResolveField, SingleParamOf, LoadStorages, SelectPairs;
    RestrictCommutes(root, names, "status_path", ran, oracle);
    var status := ResolveField(root, "status_path", ran, oracle);
    FieldResolved(root, "status_path", ran, oracle);
    if status.result.Ok? {
      RestrictCommutes(status.block, names, "status_path", ran, oracle);
      var rest := status.block.Without("status_path");
      assert rest.GetAll("pair") == root.GetAll("pair");
      FilteredSelection(root.GetAll("pair"), map[], {}, names, names);
      assert KeepOnly(rest.GetAll("pair"), names) == Restrict(rest, names).GetAll("pair");
    }
  }

  /** Asking for a pair that the file does not define is an error, whatever else is in the file. */
  lemma {:induction false} UndefinedNameRejected(root: Block, names: set<string>, ran: seq<Command>,
                                                 oracle: Oracle)
    requires !(names <= NamesIn(root.GetAll("pair")))
    ensures var r := Parse(root, Some(names), ran, oracle).result;
            && r.Err?
            && (r.error.MissingPair? ==> r.error.names == names - NamesIn(root.GetAll("pair")))
  {
    FieldResolved(root, "status_path", ran, oracle);
    FilteredSelection(root.GetAll("pair"), map[], {}, names, names);
    SelectionErrors(root.GetAll("pair"), Selection(map[], {}, Some(names)));
  }

  lemma {:induction false} SelectionErrors(ds: seq<Directive>, sel: Selection)
    ensures SelectPairs(ds, sel).Err? ==> !SelectPairs(ds, sel).error.MissingPair?
  {
    if ds != [] && SelectPair(ds[0], sel).Ok? {
      SelectionErrors(ds[1..], SelectPair(ds[0], sel).value);
    }
  }

  // ---- Exact selection ------------------------------------------------------------------------

  /** The storages that the pairs in `pairs` name. */
  function StoragesNamed(pairs: map<string, Block>): set<string> {
    (set pair | pair in pairs && FirstParam(pair, pairs[pair], "storage_a").Ok?
       :: FirstParam(pair, pairs[pair], "storage_a").value) +
    (set pair | pair in pairs && FirstParam(pair, pairs[pair], "storage_b").Ok?
       :: FirstParam(pair, pairs[pair], "storage_b").value)
  }

  /** Every pair is the block of a directive of that name, and names two storages. */
  ghost predicate PairsFrom(ds: seq<Directive>, pairs: map<string, Block>) {
    forall name | name in pairs ::
      && (exists d :: d in ds && SingleParam(d) == Ok(name) && d.child == Some(pairs[name]))
      && FirstParam(name, pairs[name], "storage_a").Ok?
      && FirstParam(name, pairs[name], "storage_b").Ok?
  }

  lemma {:induction false} NamedAfterInsert(pairs: map<string, Block>, name: string, b: Block)
    requires name !in pairs
    requires FirstParam(name, b, "storage_a").Ok? && FirstParam(name, b, "storage_b").Ok?
    ensures StoragesNamed(pairs[name := b]) == StoragesNamed(pairs) +
            {FirstParam(name, b, "storage_a").value, FirstParam(name, b, "storage_b").value}
  {
    var more := pairs[name := b];
    assert more[name] == b && forall other | other in pairs :: more[other] == pairs[other];
  }

  ghost predicate SelectionFrom(ds: seq<Directive>, sel: Selection) {
    PairsFrom(ds, sel.pairs) && sel.storages == StoragesNamed(sel.pairs)
  }

  /** The names among `names` that a selection still takes. */
  function Taken(sel: Selection, names: set<string>): set<string> {
    if sel.wanted.None? then names else names * sel.wanted.value
  }

  lemma {:induction false} SelectOne(all: seq<Directive>, d: Directive, sel: Selection)
    requires d in all && SelectionFrom(all, sel)
    requires SelectPair(d, sel).Ok?
    ensures SelectionFrom(all, SelectPair(d, sel).value)
  {
    var name := SingleParam(d).value;
    if WantsName(sel.wanted, name) && name !in sel.pairs {
      NamedAfterInsert(sel.pairs, name, d.child.value);
    }
  }

  lemma {:induction false} SelectionKeeps(all: seq<Directive>, ds: seq<Directive>, sel: Selection)
    requires forall d | d in ds :: d in all
    requires SelectionFrom(all, sel) && SelectPairs(ds, sel).Ok?
    ensures SelectionFrom(all, SelectPairs(ds, sel).value)
  {
    if ds != [] {
      hide SelectPair, SelectionFrom;
      SelectOne(all, ds[0], sel);
      SelectionKeeps(all, ds[1..], SelectPair(ds[0], sel).value);
    }
  }

  lemma {:induction false} SelectOneNames(d: Directive, sel: Selection)
    requires SelectPair(d, sel).Ok?
    ensures SingleParam(d).Ok?
    ensures var sel' := SelectPair(d, sel).value;
            && sel'.pairs.Keys == sel.pairs.Keys + Taken(sel, {SingleParam(d).value})
            && sel'.wanted == Consume(sel.wanted, SingleParam(d).value)
  {
    var name := SingleParam(d).value;
    assert !WantsName(sel.wanted, name) ==> sel.wanted.value - {name} == sel.wanted.value;
  }

  lemma {:induction false} SelectedNames(ds: seq<Directive>, sel: Selection)
    requires SelectPairs(ds, sel).Ok?
    ensures var r := SelectPairs(ds, sel).value;
            && r.pairs.Keys == sel.pairs.Keys + Taken(sel, NamesIn(ds))
            && r.wanted == if sel.wanted.None? then None else Some(sel.wanted.value - NamesIn(ds))
  {
    if ds == [] {
      assert sel.wanted.Some? ==> sel.wanted.value - {} == sel.wanted.value;
    } else {
      hide SelectPair;
      SelectOneNames(ds[0], sel);
      var sel' := SelectPair(ds[0], sel).value;
      SelectedNames(ds[1..], sel');
      if sel.wanted.Some? {
        assert sel'.wanted.value - NamesIn(ds[1..]) == sel.wanted.value - NamesIn(ds);
      }
    }
  }

  /** The blocks of the directives with the given name. */
  predicate DefinedBy(ds: seq<Directive>, name: string, d: Directive) {
    d in ds && SingleParam(d) == Ok(name) && d.child.Some?
  }

  /** `b'` is `b` with its commands resolved, after the commands `ran` had been run: each field that may
      be a command has the value it stands for, and everything else is as it was. */
  ghost predicate ResolvedFrom(b: Block, b': Block, ran: seq<Command>, oracle: Oracle) {
    && Fields(b).Ok? && Fields(b') == Fields(b)
    && SameExcept(b, b', Fields(b).value)
    && FieldsFrom(b, b', Fields(b).value, ran, oracle)
  }

  /** The fields' commands are run in order. */
  ghost predicate FieldsFrom(b: Block, b': Block, fields: seq<string>, ran: seq<Command>,
                             oracle: Oracle)
  {
    forall i | 0 <= i < |fields| ::
      FieldFrom(b, b', fields[i], ran + CommandsOf(b, fields[..i]), oracle)
  }

  lemma {:induction false} FieldsResolved(b: Block, fields: seq<string>, ran: seq<Command>,
                                          oracle: Oracle)
    requires forall i, j | 0 <= i < j < |fields| :: fields[i] != fields[j]
    ensures var r := ResolveFields(b, fields, ran, oracle);
            && SameExcept(b, r.block, fields)
            && (r.result.Ok? ==> FieldsFrom(b, r.block, fields, ran, oracle))
            && ran <= r.ran <= ran + CommandsOf(b, fields)
            && (r.result.Ok? ==> r.ran == ran + CommandsOf(b, fields))
    decreases |fields|
  {
    hide ResolveField, FieldCommands, FieldFrom, FieldsFrom;
    if fields == [] {
      NoFields(b, ran, oracle);
    } else {
      var first := ResolveField(b, fields[0], ran, oracle);
      FieldResolved(b, fields[0], ran, oracle);
      SameCommands(b, first.block, fields[0], fields[1..]);
      if first.result.Ok? {
        FieldsResolved(first.block, fields[1..], first.ran, oracle);
        var r := ResolveFields(b, fields, ran, oracle);
        assert r == ResolveFields(first.block, fields[1..], first.ran, oracle);
        assert fields[0] !in fields[1..];
        assert ran + FieldCommands(b, fields[0]) + CommandsOf(b, fields[1..]) ==
               ran + CommandsOf(b, fields);
        if r.result.Ok? {
          ResolvesExactly(b, fields[0], ran, oracle);
          FieldsThen(b, first.block, r.block, fields, ran, oracle);
        }
      }
    }
  }

  lemma {:induction false} NoFields(b: Block, ran: seq<Command>, oracle: Oracle)
    ensures FieldsFrom(b, b, [], ran, oracle)
  {
  }

  lemma {:induction false} CommandsAfterFirst(b: Block, b1: Block, fields: seq<string>,
                                              ran: seq<Command>, i: nat)
    requires 0 < i < |fields| && fields[0] !in fields[1..] && SameExcept(b, b1, [fields[0]])
    ensures ran + FieldCommands(b, fields[0]) + CommandsOf(b1, fields[1..][..i - 1]) ==
            ran + CommandsOf(b, fields[..i])
  {
    hide FieldCommands, SameExcept;
    var rest := fields[1..][..i - 1];
    assert fields[..i][0] == fields[0] && fields[..i][1..] == rest;
    assert forall field | field in rest :: field in fields[1..];
    SameCommands(b, b1, fields[0], rest);
    var own := FieldCommands(b, fields[0]);
    assert CommandsOf(b, fields[..i]) == own + CommandsOf(b, rest);
    assert ran + own + CommandsOf(b, rest) == ran + (own + CommandsOf(b, rest));
  }

  /** The first field's value, and then those of the rest. */
  lemma {:induction false} FieldsThen(b: Block, b1: Block, b': Block, fields: seq<string>,
                                      ran: seq<Command>, oracle: Oracle)
    requires fields != [] && fields[0] !in fields[1..]
    requires SameExcept(b, b1, [fields[0]]) && SameExcept(b1, b', fields[1..])
    requires FieldFrom(b, b1, fields[0], ran, oracle)
    requires FieldsFrom(b1, b', fields[1..], ran + FieldCommands(b, fields[0]), oracle)
    ensures FieldsFrom(b, b', fields, ran, oracle)
  {
    hide FieldCommands, SameExcept, CommandsOf, FieldFrom;
    forall i | 0 <= i < |fields|
      ensures FieldFrom(b, b', fields[i], ran + CommandsOf(b, fields[..i]), oracle)
    {
      if i == 0 {
        FirstField(b, b1, b', fields, ran, oracle);
      } else {
        CommandsAfterFirst(b, b1, fields, ran, i);
        assert fields[1..][i - 1] == fields[i] && fields[i] in fields[1..];
        assert FieldFrom(b1, b', fields[i], ran + CommandsOf(b, fields[..i]), oracle);
        LaterField(b, b1, b', fields[0], fields[i], ran + CommandsOf(b, fields[..i]), oracle);
      }
    }
  }

  lemma {:induction false} FirstField(b: Block, b1: Block, b': Block, fields: seq<string>,
                                      ran: seq<Command>, oracle: Oracle)
    requires fields != [] && fields[0] !in fields[1..] && SameExcept(b1, b', fields[1..])
    requires FieldFrom(b, b1, fields[0], ran, oracle)
    ensures FieldFrom(b, b', fields[0], ran + CommandsOf(b, fields[..0]), oracle)
  {
    hide GivesCommand, Outputs;
    assert ran + CommandsOf(b, fields[..0]) == ran;
  }

  lemma {:induction false} LaterField(b: Block, b1: Block, b': Block, first: string, field: string,
                                      ran: seq<Command>, oracle: Oracle)
    requires field != first && SameExcept(b, b1, [first]) && FieldFrom(b1, b', field, ran, oracle)
    ensures FieldFrom(b, b', field, ran, oracle)
  {
    hide GivesCommand, Outputs;
    assert field !in [first];
  }

  /** The commands of the given fields, in order. */
  function CommandsOf(b: Block, fields: seq<string>): seq<Command> {
    if fields == [] then [] else FieldCommands(b, fields[0]) + CommandsOf(b, fields[1..])
  }

  lemma {:induction false} SameCommands(b: Block, b': Block, changed: string, fields: seq<string>)
    requires SameExcept(b, b', [changed]) && changed !in fields
    ensures CommandsOf(b, fields) == CommandsOf(b', fields)
  {
    if fields != [] {
      assert fields[0] !in [changed];
      SameCommands(b, b', changed, fields[1..]);
    }
  }

  lemma {:induction false} DistinctFields(b: Block)
    requires Fields(b).Ok?
    ensures forall i, j | 0 <= i < j < |Fields(b).value| :: Fields(b).value[i] != Fields(b).value[j]
    ensures "type" !in Fields(b).value
  {
    assert "type" != "path" && "type" != "url" && "type" != "username" && "type" != "password" by {
      assert |"type"| == |"path"| && "type"[0] != "path"[0];
    }
    assert |"url"| != |"username"|;
    assert "username"[0] != "password"[0];
  }

  /** Resolving a storage gives each of its fields its value and leaves the rest alone. */
  lemma {:induction false} StorageResolved(b: Block, ran: seq<Command>, oracle: Oracle)
    ensures var r := ResolveStorage(b, ran, oracle);
            && (r.result.Ok? ==> ResolvedFrom(b, r.block, ran, oracle))
            && ran <= r.ran <= ran + StorageCommands(b)
            && (r.result.Ok? ==> r.ran == ran + StorageCommands(b))
  {
    if Fields(b).Ok? {
      DistinctFields(b);
      FieldsResolved(b, Fields(b).value, ran, oracle);
    }
  }

  /** Which fields these are, by the storage's type; a storage of any other type is refused. */
  lemma {:induction false} ResolvedByType(b: Block, ran: seq<Command>, oracle: Oracle)
    requires ResolveStorage(b, ran, oracle).result.Ok?
    ensures b.Get("type").Some? && b.Get("type").value.params != []
    ensures var type_, b' := b.Get("type").value.params[0], ResolveStorage(b, ran, oracle).block;
            if type_ in {"vdir/icalendar", "vdir/vcard"} then
              FieldFrom(b, b', "path", ran, oracle) && SameExcept(b, b', ["path"])
            else if type_ in {"carddav", "caldav", "jmap/icalendar", "jmap/vcard"} then
              && FieldFrom(b, b', "url", ran, oracle)
              && FieldFrom(b, b', "username", ran + FieldCommands(b, "url"), oracle)
              && FieldFrom(b, b', "password",
                           ran + FieldCommands(b, "url") + FieldCommands(b, "username"), oracle)
              && SameExcept(b, b', ["url", "username", "password"])
            else
              && type_ == "webcal"
              && FieldFrom(b, b', "url", ran, oracle) && SameExcept(b, b', ["url"])
  {
    StorageResolved(b, ran, oracle);
    hide FieldFrom, FieldCommands, SameExcept, ResolveFields;
    var fields, b' := Fields(b).value, ResolveStorage(b, ran, oracle).block;
    assert fields[..0] == [] && ran + CommandsOf(b, []) == ran;
    assert FieldFrom(b, b', fields[0], ran + CommandsOf(b, fields[..0]), oracle);
    if |fields| == 3 {
      assert fields[..1] == ["url"] && fields[..2] == ["url", "username"];
      assert ["url"][1..] == [] && ["url", "username"][1..] == ["username"];
      assert ["username"][1..] == [];
      assert CommandsOf(b, ["username"]) == FieldCommands(b, "username");
      assert ran + CommandsOf(b, fields[..1]) == ran + FieldCommands(b, "url");
      assert ran + CommandsOf(b, fields[..2]) ==
             ran + FieldCommands(b, "url") + FieldCommands(b, "username");
      assert FieldFrom(b, b', fields[1], ran + CommandsOf(b, fields[..1]), oracle);
      assert FieldFrom(b, b', fields[2], ran + CommandsOf(b, fields[..2]), oracle);
    }
  }

  /** The commands of a storage's block. */
  function StorageCommands(b: Block): seq<Command> {
    if Fields(b).Err? then [] else CommandsOf(b, Fields(b).value)
  }

  lemma {:induction false} FieldsAgain(b: Block, fields: seq<string>, ran: seq<Command>,
                                       oracle: Oracle)
    requires forall field | field in fields :: Resolved(b, field)
    ensures ResolveFields(b, fields, ran, oracle) == StorageResolution(Ok(()), b, ran)
    decreases |fields|
  {
    if fields != [] {
      ResolveAgain(b, fields[0], ran, oracle);
      FieldsAgain(b, fields[1..], ran, oracle);
    }
  }

  /** Every storage is some directive's block with its commands resolved, these being among all the
      commands that were run. */
  ghost predicate StoragesFrom(ds: seq<Directive>, storages: map<string, Block>,
                               all: seq<Command>, oracle: Oracle)
  {
    forall name | name in storages ::
      exists d, ran :: StorageFrom(ds, name, storages[name], d, ran, all, oracle)
  }

  ghost predicate StorageFrom(ds: seq<Directive>, name: string, b: Block, d: Directive,
                              ran: seq<Command>, all: seq<Command>, oracle: Oracle)
  {
    && DefinedBy(ds, name, d)
    && ResolvedFrom(d.child.value, b, ran, oracle)
    && ran + StorageCommands(d.child.value) <= all
  }

  /** The commands of the enabled storages, in file order. */
  function EnabledCommands(ds: seq<Directive>, enabled: set<string>): seq<Command> {
    if ds == [] then []
    else
      CommandsHere(ds[0], enabled) + EnabledCommands(ds[1..], enabled)
  }

  /** `r` is `ran` followed by some of the first of `more`. */
  predicate Between(ran: seq<Command>, r: seq<Command>, more: seq<Command>) {
    ran <= r <= ran + more
  }

  lemma {:induction false} BetweenThen(ran: seq<Command>, here: seq<Command>, r: seq<Command>,
                                       later: seq<Command>)
    requires Between(ran + here, r, later)
    ensures Between(ran, r, here + later)
    ensures ran + here + later == ran + (here + later)
  {
    assert ran + here + later == ran + (here + later);
  }

  lemma {:induction false} BetweenMore(ran: seq<Command>, r: seq<Command>, here: seq<Command>,
                                       later: seq<Command>)
    requires Between(ran, r, here)
    ensures Between(ran, r, here + later)
  {
    assert ran + here + later == ran + (here + later);
  }

  function CommandsHere(d: Directive, enabled: set<string>): seq<Command> {
    if SingleParam(d).Ok? && SingleParam(d).value in enabled && d.child.Some?
    then StorageCommands(d.child.value) else []
  }

  lemma {:induction false} MoreCommands(ds: seq<Directive>, storages: map<string, Block>,
                                        all: seq<Command>, more: seq<Command>, oracle: Oracle)
    requires StoragesFrom(ds, storages, all, oracle) && all <= more
    ensures StoragesFrom(ds, storages, more, oracle)
  {
    hide ResolvedFrom, DefinedBy, StorageCommands;
    forall name | name in storages
      ensures exists d, ran :: StorageFrom(ds, name, storages[name], d, ran, more, oracle)
    {
      var d, ran :| StorageFrom(ds, name, storages[name], d, ran, all, oracle);
      assert StorageFrom(ds, name, storages[name], d, ran, more, oracle);
    }
  }

  lemma {:induction false} LoadOne(all: seq<Directive>, d: Directive, enabled: set<string>,
                                   storages: map<string, Block>, ran: seq<Command>, oracle: Oracle)
    requires d in all && StoragesFrom(all, storages, ran, oracle)
    requires LoadStorage(d, enabled, storages, ran, oracle).result.Ok?
    ensures var r := LoadStorage(d, enabled, storages, ran, oracle);
            && StoragesFrom(all, r.result.value, r.ran, oracle)
            && r.result.value.Keys == storages.Keys + NamesIn([d]) * enabled
  {
    var name := SingleParam(d).value;
    if name in enabled {
      hide ResolvedFrom, StorageCommands, ResolveStorage, Fields, SameExcept, StoragesFrom;
      var r := ResolveStorage(d.child.value, ran, oracle);
      StorageResolved(d.child.value, ran, oracle);
      MoreCommands(all, storages, ran, r.ran, oracle);
      assert StorageFrom(all, name, r.block, d, ran, r.ran, oracle);
      OneMoreStorage(all, storages, name, r.block, d, ran, r.ran, oracle);
    }
  }

  lemma {:induction false} OneMoreStorage(ds: seq<Directive>, storages: map<string, Block>,
                                          name: string, b: Block, d: Directive,
                                          ran: seq<Command>, all: seq<Command>, oracle: Oracle)
    requires StoragesFrom(ds, storages, all, oracle)
    requires StorageFrom(ds, name, b, d, ran, all, oracle)
    ensures StoragesFrom(ds, storages[name := b], all, oracle)
  {
    hide StorageFrom;
    var more := storages[name := b];
    forall other | other in more
      ensures exists d', ran' :: StorageFrom(ds, other, more[other], d', ran', all, oracle)
    {
      if other != name {
        assert more[other] == storages[other];
      }
    }
  }

  lemma {:induction false} LoadedStorages(all: seq<Directive>, ds: seq<Directive>,
                                          enabled: set<string>, storages: map<string, Block>,
                                          ran: seq<Command>, oracle: Oracle)
    requires forall d | d in ds :: d in all
    requires StoragesFrom(all, storages, ran, oracle)
    requires LoadStorages(ds, enabled, storages, ran, oracle).result.Ok?
    ensures var r := LoadStorages(ds, enabled, storages, ran, oracle);
            && StoragesFrom(all, r.result.value, r.ran, oracle)
            && r.result.value.Keys == storages.Keys + NamesIn(ds) * enabled
  {
    if ds != [] {
      hide LoadStorage, StoragesFrom;
      LoadOne(all, ds[0], enabled, storages, ran, oracle);
      var first := LoadStorage(ds[0], enabled, storages, ran, oracle);
      assert NamesIn(ds) == NamesIn([ds[0]]) + NamesIn(ds[1..]);
      LoadedStorages(all, ds[1..], enabled, first.result.value, first.ran, oracle);
    }
  }

  lemma {:induction false} OneCommands(d: Directive, enabled: set<string>,
                                       storages: map<string, Block>, ran: seq<Command>,
                                       oracle: Oracle)
    ensures var r := LoadStorage(d, enabled, storages, ran, oracle);
            && Between(ran, r.ran, CommandsHere(d, enabled))
            && (r.result.Ok? ==> r.ran == ran + CommandsHere(d, enabled))
  {
    if SingleParam(d).Ok? && SingleParam(d).value in enabled && d.child.Some? {
      StorageResolved(d.child.value, ran, oracle);
    }
  }

  lemma {:induction false} LoadedCommands(ds: seq<Directive>, enabled: set<string>,
                                          storages: map<string, Block>, ran: seq<Command>,
                                          oracle: Oracle)
    ensures var r := LoadStorages(ds, enabled, storages, ran, oracle);
            && Between(ran, r.ran, EnabledCommands(ds, enabled))
            && (r.result.Ok? ==> r.ran == ran + EnabledCommands(ds, enabled))
  {
    if ds != [] {
      hide LoadStorage, CommandsHere, Between;
      OneCommands(ds[0], enabled, storages, ran, oracle);
      var first := LoadStorage(ds[0], enabled, storages, ran, oracle);
      var here, later := CommandsHere(ds[0], enabled), EnabledCommands(ds[1..], enabled);
      if first.result.Ok? {
        LoadedCommands(ds[1..], enabled, first.result.value, first.ran, oracle);
        BetweenThen(ran, here, LoadStorages(ds, enabled, storages, ran, oracle).ran, later);
      } else {
        BetweenMore(ran, first.ran, here, later);
      }
    }
  }

  lemma {:induction false} NothingFrom(pairs: seq<Directive>, storages: seq<Directive>,
                                       ran: seq<Command>, oracle: Oracle)
    ensures PairsFrom(pairs, map[]) && StoragesNamed(map[]) == {}
    ensures StoragesFrom(storages, map[], ran, oracle)
  {
  }

  /** A parsed configuration holds exactly the pairs asked for (all, without a filter), each as the
      file gives it, and exactly the defined storages that these pairs name, each resolved with the
      outputs of its commands, which are among those run. */
  lemma {:induction false} ExactSelection(root: Block, wanted: Option<set<string>>,
                                          ran: seq<Command>, oracle: Oracle)
    requires Parse(root, wanted, ran, oracle).result.Ok?
    ensures var config := Parse(root, wanted, ran, oracle).result.value;
            && config.pairs.Keys ==
                 (if wanted.None? then NamesIn(root.GetAll("pair")) else wanted.value)
            && PairsFrom(root.GetAll("pair"), config.pairs)
            && config.storages.Keys ==
                 NamesIn(root.GetAll("storage")) * StoragesNamed(config.pairs)
            && StoragesFrom(root.GetAll("storage"), config.storages,
                            Parse(root, wanted, ran, oracle).ran, oracle)
  {
    FieldResolved(root, "status_path", ran, oracle);
    hide ResolveField, PairsFrom, StoragesFrom;
    var status := ResolveField(root, "status_path", ran, oracle);
    var pairs, storages := root.GetAll("pair"), root.GetAll("storage");
    NothingFrom(pairs, storages, status.ran, oracle);
    assert status.block.Without("status_path").GetAll("pair") == pairs;
    assert status.block.Without("status_path").GetAll("storage") == storages;
    SelectionKeeps(pairs, pairs, Selection(map[], {}, wanted));
    SelectedNames(pairs, Selection(map[], {}, wanted));
    var sel := SelectPairs(pairs, Selection(map[], {}, wanted)).value;
    LoadedStorages(storages, storages, sel.storages, map[], status.ran, oracle);
  }

  lemma {:induction false} FieldsAreResolved(b: Block, b': Block, ran: seq<Command>,
                                             oracle: Oracle)
    requires ResolvedFrom(b, b', ran, oracle)
    ensures forall field | field in Fields(b').value :: Resolved(b', field)
  {
    var fields := Fields(b).value;
    hide Fields, CommandsOf, GivesCommand, Outputs;
    forall field | field in fields ensures Resolved(b', field) {
      var i :| 0 <= i < |fields| && fields[i] == field;
      assert FieldFrom(b, b', fields[i], ran + CommandsOf(b, fields[..i]), oracle);
    }
  }

  /** Resolving a storage of a parsed configuration once more changes nothing and runs nothing. */
  lemma {:induction false} ResolvingIsIdempotent(root: Block, wanted: Option<set<string>>,
                                                 ran: seq<Command>, oracle: Oracle, name: string,
                                                 ran': seq<Command>, oracle': Oracle)
    requires Parse(root, wanted, ran, oracle).result.Ok?
    requires name in Parse(root, wanted, ran, oracle).result.value.storages
    ensures var b := Parse(root, wanted, ran, oracle).result.value.storages[name];
            ResolveStorage(b, ran', oracle') == StorageResolution(Ok(()), b, ran')
  {
    ExactSelection(root, wanted, ran, oracle);
    var b := Parse(root, wanted, ran, oracle).result.value.storages[name];
    var d, before :| StorageFrom(root.GetAll("storage"), name, b, d, before,
                                 Parse(root, wanted, ran, oracle).ran, oracle);
    FieldsAreResolved(d.child.value, b, before, oracle);
    FieldsAgain(b, Fields(b).value, ran', oracle');
  }

  // ---- Command discipline ---------------------------------------------------------------------

  /** The storages enabled by the pair directives; none if these are in error. */
  function Enabled(root: Block, wanted: Option<set<string>>): set<string> {
    match SelectPairs(root.GetAll("pair"), Selection(map[], {}, wanted))
    case Err(_) => {}
    case Ok(sel) => sel.storages
  }

  lemma {:induction false} RestCommands(root: Block, wanted: Option<set<string>>,
                                        statusPath: string, ran: seq<Command>, oracle: Oracle)
    ensures var r := ParseRest(root, wanted, statusPath, ran, oracle);
            var more := EnabledCommands(root.GetAll("storage"), Enabled(root, wanted));
            Between(ran, r.ran, more) && (r.result.Ok? ==> r.ran == ran + more)
  {
    hide SelectPairs, LoadStorages, EnabledCommands;
    LoadedCommands(root.GetAll("storage"), Enabled(root, wanted), map[], ran, oracle);
  }

  /** The commands run are the status path's, then those of the storages that enabled pairs name,
      in file order and field order: all of them when parsing succeeds, and otherwise none beyond
      the first failure. No other storage's command is ever run. */
  lemma {:induction false} CommandDiscipline(root: Block, wanted: Option<set<string>>,
                                             ran: seq<Command>, oracle: Oracle)
    ensures var r := Parse(root, wanted, ran, oracle);
            var all := ran + FieldCommands(root, "status_path") +
                       EnabledCommands(root.GetAll("storage"), Enabled(root, wanted));
            && ran <= r.ran <= all
            && (r.result.Ok? ==> r.ran == all)
  {
    hide ParseRest, EnabledCommands, ResolveField, SelectPairs, FieldCommands;
    FieldResolved(root, "status_path", ran, oracle);
    var status := ResolveField(root, "status_path", ran, oracle);
    if status.result.Ok? {
      var rest := status.block.Without("status_path");
      assert rest.GetAll("pair") == root.GetAll("pair");
      assert rest.GetAll("storage") == root.GetAll("storage");
      assert Enabled(rest, wanted) == Enabled(root, wanted);
      if SingleParamOf(status.block, "status_path").Ok? {
        RestCommands(rest, wanted, SingleParamOf(status.block, "status_path").value, status.ran,
                     oracle);
      }
    }
  }
}
