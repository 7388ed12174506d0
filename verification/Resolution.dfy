/** Conflict resolution for one pair: from its plan to both sides. */
module InteractiveResolution {
  import opened Wrappers
  import opened Vstorage
  import opened Plans
  import opened Prompt
  import opened ItemConflicts
  import opened PropertyConflicts
  import opened ConflictTheorems
  import Text

  /** How the configuration says conflicts are to be resolved. */
  datatype Policy = KeepSideA | KeepSideB | Command

  /** How it ends. `AllDone` is where "No conflicts left" is printed. */
  datatype Ending =
    | NoCommand
    | Automatic
    | PlanFailed
    | NoConflicts
    | ItemsQuit
    | ResolutionFailed(error: ResolveError)
    | AskingForEver
    | AllDone

  // ---- Collecting the conflicts ---------------------------------------------------------------

  function ItemConflictOf(p: Planned): seq<ItemConflict> {
    match p
    case Ok(Item(Conflict(info))) => [info]
    case _ => []
  }

  function PropertyConflictOf(p: Planned): seq<PropertyInfo> {
    match p
    case Ok(Property(PropertyOp(m, name, PropertyConflict(a, b)))) => [PropertyInfo(m, name, a, b)]
    case _ => []
  }

  function ItemConflictsIn(plan: seq<Planned>): seq<ItemConflict> {
    if plan == [] then [] else ItemConflictOf(plan[0]) + ItemConflictsIn(plan[1..])
  }

  function PropertyConflictsIn(plan: seq<Planned>): seq<PropertyInfo> {
    if plan == [] then [] else PropertyConflictOf(plan[0]) + PropertyConflictsIn(plan[1..])
  }

  lemma {:induction false} ConflictHead(plan: seq<Planned>, i: nat)
    requires i < |plan|
    ensures ItemConflictsIn(plan[i..]) == ItemConflictOf(plan[i]) + ItemConflictsIn(plan[i + 1..])
    ensures PropertyConflictsIn(plan[i..]) ==
            PropertyConflictOf(plan[i]) + PropertyConflictsIn(plan[i + 1..])
  {
    hide ItemConflictOf, PropertyConflictOf;
    assert plan[i..][1..] == plan[i + 1..];
  }

  method CollectConflicts(plan: seq<Planned>)
    returns (items: seq<ItemConflict>, properties: seq<PropertyInfo>)
    ensures items == ItemConflictsIn(plan) && properties == PropertyConflictsIn(plan)
  {
    hide ItemConflictsIn, PropertyConflictsIn;
    items, properties := [], [];
    var i := 0;
    assert plan[0..] == plan;
    while i < |plan|
      invariant i <= |plan|
      invariant items + ItemConflictsIn(plan[i..]) == ItemConflictsIn(plan)
      invariant properties + PropertyConflictsIn(plan[i..]) == PropertyConflictsIn(plan)
    {
      ConflictHead(plan, i);
      match plan[i] {
        case Ok(Item(Conflict(info))) =>
          items := items + [info];
        case Ok(Property(PropertyOp(mapping, property, PropertyConflict(a, b)))) =>
          properties := properties + [PropertyInfo(mapping, property, a, b)];
        case _ =>
      }
      i := i + 1;
    }
    NoneCollected(plan[i..]);
  }

  lemma {:induction false} NoneCollected(plan: seq<Planned>)
    requires |plan| == 0
    ensures ItemConflictsIn(plan) == [] && PropertyConflictsIn(plan) == []
  {
  }

  /** What a sync reports as the number of conflicts. */
  function ConflictCount(plan: seq<Planned>): nat {
    if plan == [] then 0
    else (if plan[0].Ok? && plan[0].value.IsConflict() then 1 else 0) + ConflictCount(plan[1..])
  }

  /** Every conflict that a sync of the same plan counts is collected once, and nothing else is. */
  lemma {:induction false} ConflictsCollected(plan: seq<Planned>)
    ensures |ItemConflictsIn(plan)| + |PropertyConflictsIn(plan)| == ConflictCount(plan)
    ensures forall c :: Ok(Item(Conflict(c))) in plan <==> c in ItemConflictsIn(plan)
    ensures forall m, p, a, b :: Ok(Property(PropertyOp(m, p, PropertyConflict(a, b)))) in plan <==>
                                 PropertyInfo(m, p, a, b) in PropertyConflictsIn(plan)
    decreases |plan|
  {
    if plan != [] {
      assert plan == [plan[0]] + plan[1..];
      ConflictsCollected(plan[1..]);
    }
  }

  lemma {:induction false} CollectedApart(p: seq<Planned>, q: seq<Planned>)
    ensures ItemConflictsIn(p + q) == ItemConflictsIn(p) + ItemConflictsIn(q)
    ensures PropertyConflictsIn(p + q) == PropertyConflictsIn(p) + PropertyConflictsIn(q)
    decreases |p|
  {
    hide ItemConflictOf, PropertyConflictOf;
    if p == [] {
      assert p + q == q;
    } else {
      assert (p + q)[0] == p[0] && (p + q)[1..] == p[1..] + q;
      CollectedApart(p[1..], q);
    }
  }

  /** The conflicts are collected in plan order: those of a plan's first part come first, and one
      operation gives its conflict, if it is one, or nothing. */
  lemma {:induction false} CollectedInOrder(p: seq<Planned>, q: seq<Planned>, x: Planned)
    ensures ItemConflictsIn(p + q) == ItemConflictsIn(p) + ItemConflictsIn(q)
    ensures PropertyConflictsIn(p + q) == PropertyConflictsIn(p) + PropertyConflictsIn(q)
    ensures ItemConflictsIn([x]) == match x case Ok(Item(Conflict(c))) => [c] case _ => []
    ensures PropertyConflictsIn([x]) ==
            match x
            case Ok(Property(PropertyOp(m, name, PropertyConflict(a, b)))) =>
              [PropertyInfo(m, name, a, b)]
            case _ => []
  {
    CollectedApart(p, q);
    assert [x][1..] == [];
    assert ItemConflictsIn([x][1..]) == [] && PropertyConflictsIn([x][1..]) == [];
  }

  // ---- The run --------------------------------------------------------------------------------

  datatype Sides = Sides(items: Table, propsA: Props, propsB: Props)
  {
    function Properties(): PropertyTable {
      PropertyTable(propsA, propsB, items.lines, items.runs)
    }

    function WithProperties(t: PropertyTable): Sides {
      Sides(items.(lines := t.lines, runs := t.runs), t.a, t.b)
    }
  }

  /** The whole run on values. */
  function Interactive(w: World, pw: PropertyWorld, policy: Option<Policy>,
                       plan: Option<seq<Planned>>, s: Sides): (Sides, Ending)
  {
    if policy.None? then (s, NoCommand)
    else if !policy.value.Command? then (s, Automatic)
    else if plan.None? then (s, PlanFailed)
    else
      var items, properties := ItemConflictsIn(plan.value), PropertyConflictsIn(plan.value);
      if items == [] && properties == [] then (s, NoConflicts)
      else
        var (t, outcome) := ResolveItems(w, s.items, items);
        var s1 := s.(items := t);
        match outcome
        case Failed(e) => (s1, ResolutionFailed(e))
        case QuitByUser => (s1, ItemsQuit)
        case Through =>
          var (pt, end) := ResolveProperties(pw, s1.Properties(), properties);
          (s1.WithProperties(pt),
           match end
           case PropertiesFailed(e) => ResolutionFailed(e)
           case AsksForEver => AskingForEver
           case PropertiesDone => AllDone)
  }

  method ResolveInteractively(w: World, pw: PropertyWorld, policy: Option<Policy>,
                              plan: Option<seq<Planned>>,
                              a: Storage<string>, b: Storage<string>,
                              pa: PropertyStorage, pb: PropertyStorage,
                              input: Input, editor: Editor, ghost s: Sides)
    returns (ending: Ending)
    requires a != b && pa != pb && Holds(w, s.items, a, b, input, editor)
    requires pa.replies == pw.repliesA && pb.replies == pw.repliesB && pw.editor == w.editor
    requires pa.props == s.propsA && pb.props == s.propsB
    modifies a, b, pa, pb, input, editor
    ensures var (s', ending') := Interactive(w, pw, policy, plan, s);
            && ending == ending'
            && Holds(w, s'.items, a, b, input, editor)
            && pa.props == s'.propsA && pb.props == s'.propsB
  {
    hide ResolveItems, ResolveProperties, ItemConflictsIn, PropertyConflictsIn;
    if policy.None? {
      return NoCommand;
    }
    if !policy.value.Command? {
      return Automatic;
    }
    if plan.None? {
      return PlanFailed;
    }
    var items, properties := CollectConflicts(plan.value);
    if items == [] && properties == [] {
      return NoConflicts;
    }
    var goOn := ResolveItemConflicts(w, a, b, input, editor, items, s.items);
    if goOn.Err? {
      return ResolutionFailed(goOn.error);
    }
    if !goOn.value {
      return ItemsQuit;
    }
    var outcome := ResolvePropertyConflicts(pw, pa, pb, input, editor, properties,
      PropertyTable(pa.props, pb.props, input.lines, editor.runs));
    return match outcome
           case PropertiesDone => AllDone
           case AsksForEver => AskingForEver
           case PropertiesFailed(e) => ResolutionFailed(e);
  }

  // ---- What it comes to -----------------------------------------------------------------------

  function ItemDecisions(w: World, plan: seq<Planned>, s: Sides): (ds: seq<Option<string>>)
    ensures |ds| == |ItemConflictsIn(plan)|
  {
    Decisions(w, s.items.lines, s.items.runs, ItemConflictsIn(plan))
  }

  /** The property questions come after the item questions, unless those were quit. */
  function PropertyDecisions(w: World, pw: PropertyWorld, plan: seq<Planned>, s: Sides)
    : (ds: seq<Option<string>>)
    ensures |ds| == |PropertyConflictsIn(plan)|
  {
    var t := ResolveItems(w, s.items, ItemConflictsIn(plan)).0;
    Values(pw, t.lines, t.runs, PropertyConflictsIn(plan))
  }

  /** Nobody else edits while this runs, the conflicts are what the plan says, and each side takes
      its writes or needs none. */
  ghost predicate Calm(w: World, pw: PropertyWorld, plan: seq<Planned>, s: Sides) {
    && BothCurrent(s.items, ItemConflictsIn(plan), ItemDecisions(w, plan, s))
    && BothWilling(w, ItemConflictsIn(plan), ItemDecisions(w, plan, s))
    && CurrentProps(s.Properties(), PropertyConflictsIn(plan))
    && WillingProps(pw, PropertyConflictsIn(plan), PropertyDecisions(w, pw, plan, s))
  }

  /** In every conflict, the two sides differ. */
  ghost predicate Real(w: World, plan: seq<Planned>) {
    && (forall i | 0 <= i < |ItemConflictsIn(plan)| ::
          w.hash(ItemConflictsIn(plan)[i].dataA) != w.hash(ItemConflictsIn(plan)[i].dataB))
    && (forall i | 0 <= i < |PropertyConflictsIn(plan)| ::
          PropertyConflictsIn(plan)[i].valueA != PropertyConflictsIn(plan)[i].valueB)
  }

  ghost predicate ItemAgrees(w: World, s: Sides, c: ItemConflict) {
    && c.refA.href in s.items.a.entries && c.refB.href in s.items.b.entries
    && w.hash(s.items.a.entries[c.refA.href].item) == w.hash(s.items.b.entries[c.refB.href].item)
  }

  ghost predicate PropertyAgrees(s: Sides, c: PropertyInfo) {
    && KeyA(c) in s.propsA.values && KeyB(c) in s.propsB.values
    && s.propsA.values[KeyA(c)] == s.propsB.values[KeyB(c)]
  }

  lemma {:induction false} ItemsAfter(w: World, plan: seq<Planned>, s: Sides)
    requires BothCurrent(s.items, ItemConflictsIn(plan), ItemDecisions(w, plan, s))
    requires BothWilling(w, ItemConflictsIn(plan), ItemDecisions(w, plan, s))
    requires Real(w, plan)
    ensures var cs := ItemConflictsIn(plan);
            var (t, outcome) := ResolveItems(w, s.items, cs);
            && outcome != Failed(Upload)
            && forall i | 0 <= i < |cs| ::
                 ItemAgrees(w, s.(items := t), cs[i]) <==> ItemDecisions(w, plan, s)[i].Some?
  {
    var cs, ds := ItemConflictsIn(plan), ItemDecisions(w, plan, s);
    ResolutionConverges(w, s.items, cs);
    hide Decisions, ResolveItems;
    forall i | 0 <= i < |cs|
      ensures ItemAgrees(w, s.(items := ResolveItems(w, s.items, cs).0), cs[i]) <==> ds[i].Some?
    {
      assert SideA(cs, ds)[i] == Change(cs[i].refA, cs[i].dataA, ds[i]);
      assert SideB(cs, ds)[i] == Change(cs[i].refB, cs[i].dataB, ds[i]);
    }
  }

  lemma {:induction false} PropertiesAfter(pw: PropertyWorld, t: PropertyTable,
                                           cs: seq<PropertyInfo>)
    requires CurrentProps(t, cs) && WillingProps(pw, cs, Values(pw, t.lines, t.runs, cs))
    requires forall i | 0 <= i < |cs| :: cs[i].valueA != cs[i].valueB
    ensures var (t', outcome) := ResolveProperties(pw, t, cs);
            && outcome != PropertiesFailed(Upload)
            && forall i, s: Sides | 0 <= i < |cs| && s.propsA == t'.a && s.propsB == t'.b ::
                 PropertyAgrees(s, cs[i]) <==> Values(pw, t.lines, t.runs, cs)[i].Some?
  {
    PropertiesConverge(pw, t, cs);
    hide Values, ResolveProperties;
  }

  /** The message "No conflicts left" is true exactly when the user resolved every conflict: one that
      was skipped, or whose merge was rejected, or that came after the user quit the properties, is
      still there. In any case both sides agree on exactly the conflicts that were resolved. */
  lemma {:induction false} NoConflictsLeftExactly(w: World, pw: PropertyWorld, plan: seq<Planned>,
                                                  s: Sides)
    requires Calm(w, pw, plan, s) && Real(w, plan)
    requires pw.editor == w.editor
    ensures var (s', ending) := Interactive(w, pw, Some(Command), Some(plan), s);
            && ending != ResolutionFailed(Upload)
            && (forall i | 0 <= i < |ItemConflictsIn(plan)| ::
                  ItemAgrees(w, s', ItemConflictsIn(plan)[i]) <==> ItemDecisions(w, plan, s)[i].Some?)
            && (ending.AllDone? || ending.AskingForEver? ==>
                  forall i | 0 <= i < |PropertyConflictsIn(plan)| ::
                    PropertyAgrees(s', PropertyConflictsIn(plan)[i]) <==>
                    PropertyDecisions(w, pw, plan, s)[i].Some?)
            && (ending.ItemsQuit? ==> s'.propsA == s.propsA && s'.propsB == s.propsB)
  {
    hide ResolveItems, ItemConflictsIn, PropertyConflictsIn, Decisions, Values, ResolveProperties,
         BothCurrent, BothWilling, CurrentProps, WillingProps;
    var items, properties := ItemConflictsIn(plan), PropertyConflictsIn(plan);
    ItemsAfter(w, plan, s);
    var (t, outcome) := ResolveItems(w, s.items, items);
    var s1 := s.(items := t);
    if outcome.Through? && !(items == [] && properties == []) {
      SameValues(s.Properties(), s1.Properties(), properties);
      PropertiesAfter(pw, s1.Properties(), properties);
    }
  }

  lemma {:induction false} SameValues(t: PropertyTable, t': PropertyTable, cs: seq<PropertyInfo>)
    requires CurrentProps(t, cs) && t'.a == t.a && t'.b == t.b
    ensures CurrentProps(t', cs)
  {
  }

  lemma {:induction false} PlainLine(line: string)
    requires |line| == 1 && !Text.IsWhitespace(line[0])
    ensures Normalised(line) == [Text.Lower(line[0])]
  {
    assert Text.TrimStart(line) == line && Text.TrimEnd(line) == line;
    hide Text.IsWhitespace, Text.Lower, Text.TrimStart, Text.TrimEnd;
  }

  lemma {:induction false} NoIsAnswered()
    ensures Ask(["n"]) == (No, [])
  {
    LetterN();
    hide Text.IsWhitespace, Text.Lower, Normalised;
    PlainLine("n");
    assert Normalised("n") == "n";
    assert "n"[0] != "y"[0];
    assert Answer("n") == Some(No);
    hide Answer;
    assert ["n"][0] == "n" && ["n"][1..] == [];
  }

  lemma {:induction false} LetterN()
    ensures !Text.IsWhitespace('n') && Text.Lower('n') == 'n'
  {
  }

  /** The message when it is false: the user declines the only conflict there is, nothing is written,
      both sides still differ, and "No conflicts left" is printed. */
  lemma {:induction false} DeclinedIsLeft(w: World, pw: PropertyWorld, c: ItemConflict, s: Sides)
    requires s.items.lines == ["n"] && w.hash(c.dataA) != w.hash(c.dataB)
    requires c.refA.href in s.items.a.entries && c.refB.href in s.items.b.entries
    requires s.items.a.entries[c.refA.href].item == c.dataA
    requires s.items.b.entries[c.refB.href].item == c.dataB
    ensures var (s', ending) :=
              Interactive(w, pw, Some(Command), Some([Ok(Item(Conflict(c)))]), s);
            && ending.AllDone? && !ItemAgrees(w, s', c)
            && s'.items.a == s.items.a && s'.items.b == s.items.b
            && s'.propsA == s.propsA && s'.propsB == s.propsB
  {
    var plan: seq<Planned> := [Ok(Item(Conflict(c)))];
    assert plan[0].value.Item? && PropertyConflictsIn(plan[1..]) == [];
    assert ItemConflictsIn(plan[1..]) == [];
    assert ItemConflictsIn(plan) == [c] && PropertyConflictsIn(plan) == [];
    NoIsAnswered();
    hide Ask;
    var t := s.items.(lines := []);
    assert ResolveOne(w, s.items, c) == (t, None);
    assert [c][1..] == [];
    assert ResolveItems(w, s.items, [c]) == (t, Through);
  }

  // ---- How it ends ----------------------------------------------------------------------------

  /** How the user's lines and the editor alone end the item questions, and what is left of them. */
  function ItemsEnd(w: World, lines: seq<string>, runs: nat, cs: seq<ItemConflict>)
    : (Outcome, seq<string>, nat)
    decreases |cs|
  {
    if cs == [] then (Through, lines, runs)
    else
      var (answer, rest) := Ask(lines);
      match answer
      case Quit => (QuitByUser, rest, runs)
      case No => ItemsEnd(w, rest, runs, cs[1..])
      case Yes =>
        if w.editor(runs, cs[0].dataA, cs[0].dataB).NoTempFile? then
          (Failed(TempFile), rest, runs + 1)
        else ItemsEnd(w, rest, runs + 1, cs[1..])
  }

  lemma {:induction false} OneItemEnds(w: World, t: Table, cs: seq<ItemConflict>)
    requires cs != []
    ensures var (t1, end) := ResolveOne(w, t, cs[0]);
            || end == Some(Failed(Upload))
            || (end.Some? && ItemsEnd(w, t.lines, t.runs, cs) == (end.value, t1.lines, t1.runs))
            || (end.None? && ItemsEnd(w, t.lines, t.runs, cs) ==
                             ItemsEnd(w, t1.lines, t1.runs, cs[1..]))
  {
    hide Ask, Merged, ApplyChange;
  }

  /** Unless an upload fails, the item questions end as the lines say. */
  lemma {:induction false} ItemsEndExactly(w: World, t: Table, cs: seq<ItemConflict>)
    ensures var (t', outcome) := ResolveItems(w, t, cs);
            || outcome == Failed(Upload)
            || (outcome, t'.lines, t'.runs) == ItemsEnd(w, t.lines, t.runs, cs)
    decreases |cs|
  {
    if cs != [] {
      OneItemEnds(w, t, cs);
      hide ResolveOne, ItemsEnd;
      if ResolveOne(w, t, cs[0]).1.None? {
        ItemsEndExactly(w, ResolveOne(w, t, cs[0]).0, cs[1..]);
      }
    } else {
      hide ResolveOne;
    }
  }

  /** A write decided for some item conflict is stale, or not accepted. */
  predicate ItemRefused(w: World, plan: seq<Planned>, s: Sides) {
    SomeNotAccepted(w, s.items, ItemConflictsIn(plan), ItemDecisions(w, plan, s))
  }

  /** The state in which the property questions begin, when the item questions went through. */
  function BeforeProperties(w: World, plan: seq<Planned>, s: Sides): PropertyTable {
    var (_, lines, runs) := ItemsEnd(w, s.items.lines, s.items.runs, ItemConflictsIn(plan));
    PropertyTable(s.propsA, s.propsB, lines, runs)
  }

  function PropertiesEndWith(pw: PropertyWorld, plan: seq<Planned>, t: PropertyTable): Ending {
    var cs := PropertyConflictsIn(plan);
    match PropertiesEnd(pw, t.lines, t.runs, cs)
    case PropertiesDone => AllDone
    case PropertiesFailed(e) => ResolutionFailed(e)
    case AsksForEver => AskingForEver
  }

  /** How a run over a plan with conflicts ends, exactly, whatever the storages hold: with a failed
      upload if a decided write of an item is stale or not accepted; otherwise as the lines end the
      item questions, and if the user quits them, or they fail, no property is asked about or
      touched; otherwise with a failed upload if a write of a property is not accepted, or as the
      lines end the property questions. */
  lemma {:induction false} EndsExactly(w: World, pw: PropertyWorld, plan: seq<Planned>, s: Sides)
    requires ItemConflictsIn(plan) != [] || PropertyConflictsIn(plan) != []
    ensures var (s', ending) := Interactive(w, pw, Some(Command), Some(plan), s);
            var t := BeforeProperties(w, plan, s);
            var untouched := s'.propsA == s.propsA && s'.propsB == s.propsB;
            if ItemRefused(w, plan, s) then ending == ResolutionFailed(Upload) && untouched
            else
              match ItemsEnd(w, s.items.lines, s.items.runs, ItemConflictsIn(plan)).0
              case QuitByUser =>
                ending == ItemsQuit && untouched && s'.items.lines == t.lines
              case Failed(e) =>
                ending == ResolutionFailed(e) && untouched && s'.items.lines == t.lines
              case Through =>
                var cs := PropertyConflictsIn(plan);
                ending == if SomeRefused(pw, t, cs, Values(pw, t.lines, t.runs, cs)) then
                            ResolutionFailed(Upload)
                          else PropertiesEndWith(pw, plan, t)
  {
    hide ResolveItems, ItemConflictsIn, PropertyConflictsIn, Decisions, Values, ResolveProperties,
         ItemsEnd, SomeRefused, PropertiesEnd, ItemRefused;
    var items, properties := ItemConflictsIn(plan), PropertyConflictsIn(plan);
    RefusedExactly(w, plan, s);
    ItemsEndExactly(w, s.items, items);
    NeverUploadByLines(w, s.items.lines, s.items.runs, items);
    var (t, outcome) := ResolveItems(w, s.items, items);
    PropertiesEndExactly(pw, s.(items := t).Properties(), properties);
  }

  lemma {:induction false} RefusedExactly(w: World, plan: seq<Planned>, s: Sides)
    ensures ItemRefused(w, plan, s) <==>
            ResolveItems(w, s.items, ItemConflictsIn(plan)).1 == Failed(Upload)
  {
    hide ResolveItems, ItemConflictsIn, Decisions, SomeNotAccepted;
    RunFailsExactly(w, s.items, ItemConflictsIn(plan));
  }

  lemma {:induction false} NeverUploadByLines(w: World, lines: seq<string>, runs: nat,
                                              cs: seq<ItemConflict>)
    ensures ItemsEnd(w, lines, runs, cs).0 != Failed(Upload)
    decreases |cs|
  {
    hide Ask;
    if cs != [] {
      var (answer, rest) := Ask(lines);
      NeverUploadByLines(w, rest, runs, cs[1..]);
      NeverUploadByLines(w, rest, runs + 1, cs[1..]);
    }
  }

  /** The early ends: nothing is touched. */
  lemma {:induction false} EndsEarly(w: World, pw: PropertyWorld, policy: Option<Policy>,
                                     plan: Option<seq<Planned>>, s: Sides)
    ensures policy == None ==> Interactive(w, pw, policy, plan, s) == (s, NoCommand)
    ensures policy in {Some(KeepSideA), Some(KeepSideB)} ==>
              Interactive(w, pw, policy, plan, s) == (s, Automatic)
    ensures policy == Some(Command) && plan.None? ==>
              Interactive(w, pw, policy, plan, s) == (s, PlanFailed)
    ensures policy == Some(Command) && plan.Some? && ConflictCount(plan.value) == 0 ==>
              Interactive(w, pw, policy, plan, s) == (s, NoConflicts)
  {
    if plan.Some? {
      ConflictsCollected(plan.value);
    }
  }
}
