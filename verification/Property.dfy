/** Interactive resolution of property conflicts. */
module PropertyConflicts {
  import opened Wrappers
  import opened Vstorage
  import opened Plans
  import opened Prompt
  import opened ItemConflicts
  import Text

  datatype Choice = KeepA | KeepB | Custom(value: string) | Skip | QuitAll

  /** What one line answers to "Keep (A), (B), (E)dit, (S)kip, or (Q)uit?"; (E) needs the editor. */
  datatype Reading = Chosen(choice: Choice) | Edit | NotAnAnswer

  function Read(line: string): Reading {
    var t := Normalised(line);
    if t == "a" then Chosen(KeepA)
    else if t == "b" then Chosen(KeepB)
    else if t == "e" then Edit
    else if t == "s" then Chosen(Skip)
    else if t == "q" then Chosen(QuitAll)
    else NotAnAnswer
  }

  /** The choice made, or failure to write the temporary files; None when the question is asked for
      ever. With it, what is left of the input, and how often the editor has been run. */
  datatype Pick = Pick(choice: Option<Result<Choice, ResolveError>>, lines: seq<string>, runs: nat)

  /** What asking comes to. */
  function Choose(editor: (nat, string, string) -> EditorRun, lines: seq<string>, runs: nat,
                  a: string, b: string): (r: Pick)
    ensures r.choice.Some? && r.choice.value.Err? ==> r.choice.value.error == TempFile
    decreases |lines|
  {
    if lines == [] then Pick(None, [], runs)
    else
      match Read(lines[0])
      case Chosen(choice) => Pick(Some(Ok(choice)), lines[1..], runs)
      case NotAnAnswer => Choose(editor, lines[1..], runs, a, b)
      case Edit =>
        var run := editor(runs, a, b);
        if run.NoTempFile? then Pick(Some(Err(TempFile)), lines[1..], runs + 1)
        else
          match Merged(run)
          case Ok(text) => Pick(Some(Ok(Custom(Text.Trim(text)))), lines[1..], runs + 1)
          case Err(_) => Choose(editor, lines[1..], runs + 1, a, b)
  }

  /** The editor's result is good: two files that are not blank and the same but for blanks around. */
  ghost predicate Accepted(run: EditorRun) {
    && run.Edited? && !Text.Blank(run.newA) && !Text.Blank(run.newB)
    && exists t :: BothFrame(run.newA, run.newB, t)
  }

  /** What each line means to the question: `a`, `b`, `s` and `q` choose, small or capital and with blanks
      around; `e` has the editor run, and chooses its result without the blanks around it if that is
      accepted, fails if there are no temporary files, and is asked again otherwise; any other line
      is passed over. At the end of the input nothing is chosen. */
  lemma {:induction false} LineChooses(editor: (nat, string, string) -> EditorRun, line: string,
                                       rest: seq<string>, runs: nat, a: string, b: string)
    ensures Choose(editor, [line] + rest, runs, a, b) ==
            if IsLetter(line, 'a', 'A') then Pick(Some(Ok(KeepA)), rest, runs)
            else if IsLetter(line, 'b', 'B') then Pick(Some(Ok(KeepB)), rest, runs)
            else if IsLetter(line, 's', 'S') then Pick(Some(Ok(Skip)), rest, runs)
            else if IsLetter(line, 'q', 'Q') then Pick(Some(Ok(QuitAll)), rest, runs)
            else if IsLetter(line, 'e', 'E') then
              var run := editor(runs, a, b);
              if run.NoTempFile? then Pick(Some(Err(TempFile)), rest, runs + 1)
              else if Accepted(run) then
                Pick(Some(Ok(Custom(Text.Trim(run.newA)))), rest, runs + 1)
              else Choose(editor, rest, runs + 1, a, b)
            else Choose(editor, rest, runs, a, b)
    ensures Choose(editor, [], runs, a, b) == Pick(None, [], runs)
  {
    LineReads(line);
    MergedExactly(editor(runs, a, b));
    hide IsLetter, Read, Merged, Text.Trim, Text.Blank, BothFrame;
    assert ([line] + rest)[0] == line && ([line] + rest)[1..] == rest;
  }

  lemma {:induction false} LineReads(line: string)
    ensures Read(line) ==
            if IsLetter(line, 'a', 'A') then Chosen(KeepA)
            else if IsLetter(line, 'b', 'B') then Chosen(KeepB)
            else if IsLetter(line, 's', 'S') then Chosen(Skip)
            else if IsLetter(line, 'q', 'Q') then Chosen(QuitAll)
            else if IsLetter(line, 'e', 'E') then Edit
            else NotAnAnswer
  {
    LetterNormalised(line, 'a', 'A');
    LetterNormalised(line, 'b', 'B');
    LetterNormalised(line, 's', 'S');
    LetterNormalised(line, 'q', 'Q');
    LetterNormalised(line, 'e', 'E');
    hide IsLetter, Normalised;
    assert ['a'] == "a" && ['b'] == "b" && ['s'] == "s" && ['q'] == "q" && ['e'] == "e";
  }

  /** At the end of the input, reading gives empty lines for ever, and none of them is an answer. */
  lemma {:induction false} EmptyIsNoAnswer()
    ensures Read("").NotAnAnswer?
  {
    assert Text.Trim("") == "";
    assert Normalised("") == "";
  }

  /** Returns None where the program would go on asking: the input is at its end. */
  method ChoosePropertyValue(input: Input, editor: Editor, a: string, b: string)
    returns (r: Option<Result<Choice, ResolveError>>)
    modifies input, editor
    ensures Pick(r, input.lines, editor.runs) ==
            Choose(editor.run, old(input.lines), old(editor.runs), a, b)
    ensures r.None? ==> input.lines == [] && Read("").NotAnAnswer?
  {
    EmptyIsNoAnswer();
    hide Read, Merged;
    while input.lines != []
      invariant Choose(editor.run, input.lines, editor.runs, a, b) ==
                Choose(editor.run, old(input.lines), old(editor.runs), a, b)
      decreases |input.lines|
    {
      var response := input.ReadLine();
      match Read(response) {
        case Chosen(choice) => return Some(Ok(choice));
        case NotAnAnswer =>
        case Edit =>
          var run := editor.Run(a, b);
          if run.NoTempFile? {
            return Some(Err(TempFile));
          }
          var text := RunMergeCommand(run);
          if text.Ok? {
            return Some(Ok(Custom(Text.Trim(text.value))));
          }
      }
    }
    return None;
  }

  /** The editor was run, and its result is refused, so that the question is asked again. */
  predicate Rejected(run: EditorRun) {
    !run.NoTempFile? && Merged(run).Err?
  }

  /** How often these lines ask for the editor. */
  function Edits(lines: seq<string>): nat {
    if lines == [] then 0 else (if Read(lines[0]).Edit? then 1 else 0) + Edits(lines[1..])
  }

  /** The `i`-th line chooses, or asks for an editor run that is not rejected. Before it, each line that
      asked for the editor had it run once. */
  predicate EndsAt(editor: (nat, string, string) -> EditorRun, lines: seq<string>, runs: nat,
                   a: string, b: string, i: nat)
    requires i < |lines|
  {
    || Read(lines[i]).Chosen?
    || (Read(lines[i]).Edit? && !Rejected(editor(runs + Edits(lines[..i]), a, b)))
  }

  lemma {:induction false} EndsLater(editor: (nat, string, string) -> EditorRun,
                                     lines: seq<string>, runs: nat, a: string, b: string, i: nat)
    requires i + 1 < |lines|
    ensures EndsAt(editor, lines, runs, a, b, i + 1) <==>
            EndsAt(editor, lines[1..], runs + Edits(lines[..1]), a, b, i)
  {
    hide Read, Rejected;
    assert lines[..i + 1][1..] == lines[1..][..i];
    assert lines[..1][1..] == [];
  }

  /** The `i`-th line is the first that ends the question. */
  predicate EndsFirstAt(editor: (nat, string, string) -> EditorRun, lines: seq<string>, runs: nat,
                        a: string, b: string, i: nat)
    requires i < |lines|
  {
    && EndsAt(editor, lines, runs, a, b, i)
    && forall j | 0 <= j < i :: !EndsAt(editor, lines, runs, a, b, j)
  }

  /** The question is answered exactly if some line ends it, and then the rest of the input is what
      follows the first such line. */
  ghost predicate Explained(pick: Pick, editor: (nat, string, string) -> EditorRun,
                            lines: seq<string>, runs: nat, a: string, b: string)
  {
    if pick.choice.Some? then
      exists i :: 0 <= i < |lines| && EndsFirstAt(editor, lines, runs, a, b, i)
                  && pick.lines == lines[i + 1..]
    else forall i | 0 <= i < |lines| :: !EndsAt(editor, lines, runs, a, b, i)
  }

  lemma {:induction false} ExplainedNow(pick: Pick, editor: (nat, string, string) -> EditorRun,
                                        lines: seq<string>, runs: nat, a: string, b: string)
    requires lines != [] && EndsAt(editor, lines, runs, a, b, 0)
    requires pick.choice.Some? && pick.lines == lines[1..]
    ensures Explained(pick, editor, lines, runs, a, b)
  {
    hide EndsAt;
    assert EndsFirstAt(editor, lines, runs, a, b, 0) && lines[0 + 1..] == lines[1..];
  }

  lemma {:induction false} ExplainedLater(pick: Pick, editor: (nat, string, string) -> EditorRun,
                                          lines: seq<string>, runs: nat, a: string, b: string)
    requires lines != [] && !EndsAt(editor, lines, runs, a, b, 0)
    requires Explained(pick, editor, lines[1..], runs + Edits(lines[..1]), a, b)
    ensures Explained(pick, editor, lines, runs, a, b)
  {
    hide EndsAt, Edits;
    var later := runs + Edits(lines[..1]);
    forall i | 0 < i < |lines|
      ensures EndsAt(editor, lines, runs, a, b, i) <==>
              EndsAt(editor, lines[1..], later, a, b, i - 1)
    {
      EndsLater(editor, lines, runs, a, b, i - 1);
    }
    if pick.choice.Some? {
      var i :| 0 <= i < |lines[1..]| && EndsFirstAt(editor, lines[1..], later, a, b, i)
               && pick.lines == lines[1..][i + 1..];
      assert EndsFirstAt(editor, lines, runs, a, b, i + 1);
      assert lines[1..][i + 1..] == lines[(i + 1) + 1..];
    }
  }

  /** How asking begins: it ends with the first line, or goes on with the next. */
  lemma {:induction false} ChooseHead(editor: (nat, string, string) -> EditorRun,
                                      lines: seq<string>, runs: nat, a: string, b: string)
    requires lines != []
    ensures var pick := Choose(editor, lines, runs, a, b);
            if EndsAt(editor, lines, runs, a, b, 0) then
              pick.choice.Some? && pick.lines == lines[1..]
            else
              pick == Choose(editor, lines[1..], runs + Edits(lines[..1]), a, b)
  {
    hide Read, Merged;
    assert lines[..0] == [] && lines[..1] == [lines[0]] && lines[..1][1..] == [];
  }

  /** Unlike the yes/no question, this one has no answer at the end of the input: it is answered
      exactly when some line ends it. */
  lemma {:induction false} ReturnsExactly(editor: (nat, string, string) -> EditorRun,
                                          lines: seq<string>, runs: nat, a: string, b: string)
    ensures Explained(Choose(editor, lines, runs, a, b), editor, lines, runs, a, b)
    decreases |lines|
  {
    hide *;
    if lines == [] {
      NoLineEnds(editor, runs, a, b);
    } else {
      ChooseHead(editor, lines, runs, a, b);
      var pick := Choose(editor, lines, runs, a, b);
      if EndsAt(editor, lines, runs, a, b, 0) {
        ExplainedNow(pick, editor, lines, runs, a, b);
      } else {
        ReturnsExactly(editor, lines[1..], runs + Edits(lines[..1]), a, b);
        ExplainedLater(pick, editor, lines, runs, a, b);
      }
    }
  }

  lemma {:induction false} NoLineEnds(editor: (nat, string, string) -> EditorRun, runs: nat,
                                      a: string, b: string)
    ensures Explained(Choose(editor, [], runs, a, b), editor, [], runs, a, b)
  {
    hide EndsAt, EndsFirstAt, Read, Merged;
  }

  // ---- Writing the values ---------------------------------------------------------------------

  type Key = (string, string)

  /** A storage's properties by collection and name, and all writes attempted so far. */
  datatype Props = Props(values: map<Key, string>, writes: seq<Key>)

  function SetValue(s: Props, reply: Reply, key: Key, value: string): (Props, bool) {
    var logged := s.(writes := s.writes + [key]);
    if reply.Refuse? then (logged, false)
    else (logged.(values := s.values[key := value]), reply.Accept?)
  }

  class PropertyStorage {
    const replies: nat -> Reply
    var props: Props

    constructor (props: Props, replies: nat -> Reply)
      ensures this.props == props && this.replies == replies
    {
      this.props := props;
      this.replies := replies;
    }

    method SetProperty(href: string, property: string, value: string) returns (ok: bool)
      modifies this
      ensures (props, ok) ==
              SetValue(old(props), replies(|old(props).writes|), (href, property), value)
    {
      var reply := replies(|props.writes|);
      props := props.(writes := props.writes + [(href, property)]);
      if !reply.Refuse? {
        props := props.(values := props.values[(href, property) := value]);
      }
      ok := reply.Accept?;
    }
  }

  datatype PropertyInfo = PropertyInfo(mapping: Mapping, property: string, valueA: string,
                                       valueB: string)

  datatype PropertyWorld = PropertyWorld(repliesA: nat -> Reply, repliesB: nat -> Reply,
                                         editor: (nat, string, string) -> EditorRun)

  datatype PropertyTable = PropertyTable(a: Props, b: Props, lines: seq<string>, runs: nat)

  function KeyA(c: PropertyInfo): Key {
    (c.mapping.hrefA, c.property)
  }

  function KeyB(c: PropertyInfo): Key {
    (c.mapping.hrefB, c.property)
  }

  /** Write the value to the sides that do not have it; both are tried, then errors count. */
  function UploadValue(w: PropertyWorld, t: PropertyTable, c: PropertyInfo, value: string)
    : (PropertyTable, bool)
  {
    var (a, okA) := if value != c.valueA
                    then SetValue(t.a, w.repliesA(|t.a.writes|), KeyA(c), value) else (t.a, true);
    var (b, okB) := if value != c.valueB
                    then SetValue(t.b, w.repliesB(|t.b.writes|), KeyB(c), value) else (t.b, true);
    (t.(a := a, b := b), okA && okB)
  }

  method UploadResolvedProperty(w: PropertyWorld, a: PropertyStorage, b: PropertyStorage,
                                c: PropertyInfo, value: string, ghost t: PropertyTable)
    returns (ok: bool)
    requires a != b && a.replies == w.repliesA && b.replies == w.repliesB
    requires a.props == t.a && b.props == t.b
    modifies a, b
    ensures var (t', ok') := UploadValue(w, t, c, value);
            ok == ok' && a.props == t'.a && b.props == t'.b
  {
    var resultA, resultB := true, true;
    if value != c.valueA {
      resultA := a.SetProperty(c.mapping.hrefA, c.property, value);
    }
    if value != c.valueB {
      resultB := b.SetProperty(c.mapping.hrefB, c.property, value);
    }
    ok := resultA && resultB;
  }

  function ValueOf(choice: Choice, c: PropertyInfo): string
    requires !choice.Skip? && !choice.QuitAll?
  {
    match choice
    case KeepA => c.valueA
    case KeepB => c.valueB
    case Custom(value) => value
  }

  /** How the loop ends: by itself or by the user's choice, with an error, or never, in a question
      that is asked for ever. */
  datatype PropertyOutcome = PropertiesDone | PropertiesFailed(error: ResolveError) | AsksForEver

  function ResolveProperties(w: PropertyWorld, t: PropertyTable, cs: seq<PropertyInfo>)
    : (PropertyTable, PropertyOutcome)
    decreases |cs|
  {
    if cs == [] then (t, PropertiesDone)
    else
      var Pick(choice, lines, runs) :=
        Choose(w.editor, t.lines, t.runs, cs[0].valueA, cs[0].valueB);
      var t1 := t.(lines := lines, runs := runs);
      match choice
      case None => (t1, AsksForEver)
      case Some(Err(e)) => (t1, PropertiesFailed(e))
      case Some(Ok(Skip)) => ResolveProperties(w, t1, cs[1..])
      case Some(Ok(QuitAll)) => (t1, PropertiesDone)
      case Some(Ok(c)) =>
        var (t2, ok) := UploadValue(w, t1, cs[0], ValueOf(c, cs[0]));
        if ok then ResolveProperties(w, t2, cs[1..]) else (t2, PropertiesFailed(Upload))
  }

  method ResolvePropertyConflicts(w: PropertyWorld, a: PropertyStorage, b: PropertyStorage,
                                  input: Input, editor: Editor, conflicts: seq<PropertyInfo>,
                                  ghost t0: PropertyTable)
    returns (outcome: PropertyOutcome)
    requires a != b && a.replies == w.repliesA && b.replies == w.repliesB && editor.run == w.editor
    requires t0 == PropertyTable(a.props, b.props, input.lines, editor.runs)
    modifies a, b, input, editor
    ensures (PropertyTable(a.props, b.props, input.lines, editor.runs), outcome) ==
            ResolveProperties(w, t0, conflicts)
  {
    hide Choose;
    var i := 0;
    while i < |conflicts|
      invariant i <= |conflicts|
      invariant ResolveProperties(w, PropertyTable(a.props, b.props, input.lines, editor.runs),
                                  conflicts[i..]) ==
                ResolveProperties(w, t0, conflicts)
    {
      var op := conflicts[i];
      var picked := ChoosePropertyValue(input, editor, op.valueA, op.valueB);
      i := i + 1;
      if picked.None? {
        return AsksForEver;
      }
      var choice := picked.value;
      if choice.Err? {
        return PropertiesFailed(choice.error);
      }
      if choice.value.QuitAll? {
        return PropertiesDone;
      }
      if !choice.value.Skip? {
        var ok := UploadResolvedProperty(w, a, b, op, ValueOf(choice.value, op),
                                         PropertyTable(a.props, b.props, input.lines, editor.runs));
        if !ok {
          return PropertiesFailed(Upload);
        }
      }
    }
    return PropertiesDone;
  }

  // ---- What it leaves -------------------------------------------------------------------------

  /** For each conflict, the value it is to be resolved with, if it is resolved at all: up to the
      user's lines and the editor alone. */
  function Values(w: PropertyWorld, lines: seq<string>, runs: nat, cs: seq<PropertyInfo>)
    : (ds: seq<Option<string>>)
    ensures |ds| == |cs|
    decreases |cs|
  {
    if cs == [] then []
    else
      var Pick(choice, rest, runs') := Choose(w.editor, lines, runs, cs[0].valueA, cs[0].valueB);
      match choice
      case Some(Ok(QuitAll)) => seq(|cs|, _ => None)
      case Some(Ok(Skip)) => [None] + Values(w, rest, runs', cs[1..])
      case Some(Ok(c)) => [Some(ValueOf(c, cs[0]))] + Values(w, rest, runs', cs[1..])
      case _ => seq(|cs|, _ => None)
  }

  /** How the first line decides the first conflict: A's value, B's value, none, none at all; or, if
      the editor's result is accepted, that without the blanks around it. */
  lemma {:induction false} FirstLineDecides(w: PropertyWorld, lines: seq<string>, runs: nat,
                                            cs: seq<PropertyInfo>)
    requires lines != [] && cs != []
    ensures var ds := Values(w, lines, runs, cs);
            var line := Normalised(lines[0]);
            var run := w.editor(runs, cs[0].valueA, cs[0].valueB);
            && (line == "a" ==> ds[0] == Some(cs[0].valueA))
            && (line == "b" ==> ds[0] == Some(cs[0].valueB))
            && (line == "s" ==> ds[0] == None && ds[1..] == Values(w, lines[1..], runs, cs[1..]))
            && (line == "q" ==> forall i | 0 <= i < |ds| :: ds[i] == None)
            && (line == "e" && run.Edited? && Merged(run).Ok? ==>
                  ds[0] == Some(Text.Trim(run.newA)))
  {
    hide Normalised, Text.Trim;
  }

  /** Nobody else edited, and no two conflicts are about the same property. */
  ghost predicate CurrentProps(t: PropertyTable, cs: seq<PropertyInfo>) {
    && (forall i | 0 <= i < |cs| ::
          && KeyA(cs[i]) in t.a.values && t.a.values[KeyA(cs[i])] == cs[i].valueA
          && KeyB(cs[i]) in t.b.values && t.b.values[KeyB(cs[i])] == cs[i].valueB)
    && (forall i, j | 0 <= i < j < |cs| :: KeyA(cs[i]) != KeyA(cs[j]) && KeyB(cs[i]) != KeyB(cs[j]))
  }

  /** Each side takes its writes, or needs none. */
  ghost predicate WillingProps(w: PropertyWorld, cs: seq<PropertyInfo>, ds: seq<Option<string>>)
    requires |ds| == |cs|
  {
    && (|| (forall n: nat :: w.repliesA(n).Accept?)
        || (forall i | 0 <= i < |cs| :: ds[i] in {None, Some(cs[i].valueA)}))
    && (|| (forall n: nat :: w.repliesB(n).Accept?)
        || (forall i | 0 <= i < |cs| :: ds[i] in {None, Some(cs[i].valueB)}))
  }

  /** Resolved with a value, both sides hold it; unresolved, both are as they were. */
  ghost predicate Settled(t: PropertyTable, t': PropertyTable, c: PropertyInfo, d: Option<string>) {
    && KeyA(c) in t.a.values && KeyA(c) in t'.a.values
    && KeyB(c) in t.b.values && KeyB(c) in t'.b.values
    && t'.a.values[KeyA(c)] == (if d.Some? then d.value else t.a.values[KeyA(c)])
    && t'.b.values[KeyB(c)] == (if d.Some? then d.value else t.b.values[KeyB(c)])
  }

  /** Only keys of the conflicts changed. */
  ghost predicate OthersKept(t: PropertyTable, t': PropertyTable, cs: seq<PropertyInfo>) {
    && (forall key | key in t.a.values && (forall i | 0 <= i < |cs| :: KeyA(cs[i]) != key) ::
          key in t'.a.values && t'.a.values[key] == t.a.values[key])
    && (forall key | key in t.b.values && (forall i | 0 <= i < |cs| :: KeyB(cs[i]) != key) ::
          key in t'.b.values && t'.b.values[key] == t.b.values[key])
  }

  /** The write that a conflict takes on a side holding `own`, and those that all of them take. */
  function Needed(key: Key, own: string, d: Option<string>): seq<Key> {
    if d in {None, Some(own)} then [] else [key]
  }

  function WritesA(cs: seq<PropertyInfo>, ds: seq<Option<string>>): seq<Key>
    requires |ds| == |cs|
  {
    if cs == [] then []
    else Needed(KeyA(cs[0]), cs[0].valueA, ds[0]) + WritesA(cs[1..], ds[1..])
  }

  function WritesB(cs: seq<PropertyInfo>, ds: seq<Option<string>>): seq<Key>
    requires |ds| == |cs|
  {
    if cs == [] then []
    else Needed(KeyB(cs[0]), cs[0].valueB, ds[0]) + WritesB(cs[1..], ds[1..])
  }

  lemma {:induction false} UploadOne(w: PropertyWorld, t: PropertyTable, cs: seq<PropertyInfo>,
                                     ds: seq<Option<string>>)
    requires cs != [] && |ds| == |cs| && CurrentProps(t, cs) && WillingProps(w, cs, ds)
    requires ds[0].Some?
    ensures var (t', ok) := UploadValue(w, t, cs[0], ds[0].value);
            && ok && OthersKept(t, t', cs[..1]) && CurrentProps(t', cs[1..])
            && Settled(t, t', cs[0], ds[0])
            && t'.a.writes == t.a.writes + Needed(KeyA(cs[0]), cs[0].valueA, ds[0])
            && t'.b.writes == t.b.writes + Needed(KeyB(cs[0]), cs[0].valueB, ds[0])
            && t'.lines == t.lines && t'.runs == t.runs
  {
    assert cs[..1] == [cs[0]];
    assert forall i | 0 <= i < |cs[1..]| :: cs[1..][i] == cs[i + 1];
  }

  lemma {:induction false} OthersCompose(t: PropertyTable, t1: PropertyTable, t': PropertyTable,
                                         cs: seq<PropertyInfo>)
    requires cs != [] && OthersKept(t, t1, cs[..1]) && OthersKept(t1, t', cs[1..])
    ensures OthersKept(t, t', cs)
  {
    assert forall i | 0 <= i < |cs[1..]| :: cs[1..][i] == cs[i + 1];
    assert forall i | 0 <= i < |cs[..1]| :: cs[..1][i] == cs[i];
  }

  /** What happens to the head of the list survives the rest of the run. */
  lemma {:induction false} HeadStays(t: PropertyTable, t1: PropertyTable, t': PropertyTable,
                                     cs: seq<PropertyInfo>, d: Option<string>)
    requires cs != [] && CurrentProps(t, cs)
    requires Settled(t, t1, cs[0], d) && OthersKept(t1, t', cs[1..])
    ensures Settled(t, t', cs[0], d)
  {
    assert forall i | 0 <= i < |cs[1..]| :: cs[1..][i] == cs[i + 1];
  }

  lemma {:induction false} TailSettled(t: PropertyTable, t1: PropertyTable, t': PropertyTable,
                                       cs: seq<PropertyInfo>, ds: seq<Option<string>>)
    requires cs != [] && |ds| == |cs| && CurrentProps(t, cs) && OthersKept(t, t1, cs[..1])
    requires forall i | 0 <= i < |cs[1..]| :: Settled(t1, t', cs[1..][i], ds[1..][i])
    ensures forall i | 0 < i < |cs| :: Settled(t, t', cs[i], ds[i])
  {
    assert cs[..1] == [cs[0]];
    forall i | 0 < i < |cs|
      ensures Settled(t, t', cs[i], ds[i])
    {
      assert cs[1..][i - 1] == cs[i] && ds[1..][i - 1] == ds[i];
      assert KeyA(cs[i]) != KeyA(cs[0]) && KeyB(cs[i]) != KeyB(cs[0]);
    }
  }

  lemma {:induction false} Unwritten(t: PropertyTable, cs: seq<PropertyInfo>,
                                     ds: seq<Option<string>>)
    requires |ds| == |cs| && CurrentProps(t, cs) && (forall i | 0 <= i < |ds| :: ds[i].None?)
    ensures forall i | 0 <= i < |cs| :: Settled(t, t, cs[i], ds[i])
    ensures OthersKept(t, t, cs)
  {
  }

  lemma {:induction false} NothingWritten(cs: seq<PropertyInfo>, ds: seq<Option<string>>)
    requires |ds| == |cs| && (forall i | 0 <= i < |ds| :: ds[i].None?)
    ensures WritesA(cs, ds) == [] && WritesB(cs, ds) == []
  {
    if cs != [] {
      NothingWritten(cs[1..], ds[1..]);
    }
  }

  /** One turn of the loop: it ends the run with nothing written, or goes on from a table where the
      head is settled, all else kept, and the rest still current. */
  lemma {:induction false} PropertyTurn(w: PropertyWorld, t: PropertyTable, cs: seq<PropertyInfo>)
    returns (t1: PropertyTable, goesOn: bool)
    requires cs != [] && CurrentProps(t, cs)
    requires WillingProps(w, cs, Values(w, t.lines, t.runs, cs))
    ensures OthersKept(t, t1, cs[..1]) && CurrentProps(t1, cs[1..])
    ensures var ds := Values(w, t.lines, t.runs, cs);
            && Settled(t, t1, cs[0], ds[0])
            && t1.a.writes == t.a.writes + Needed(KeyA(cs[0]), cs[0].valueA, ds[0])
            && t1.b.writes == t.b.writes + Needed(KeyB(cs[0]), cs[0].valueB, ds[0])
            && if goesOn then
                 && ResolveProperties(w, t, cs) == ResolveProperties(w, t1, cs[1..])
                 && ds[1..] == Values(w, t1.lines, t1.runs, cs[1..])
               else
                 var (t', outcome) := ResolveProperties(w, t, cs);
                 && t' == t1 && outcome != PropertiesFailed(Upload)
                 && forall i | 0 <= i < |ds| :: ds[i].None?
  {
    hide Choose;
    var ds := Values(w, t.lines, t.runs, cs);
    assert cs[..1] == [cs[0]];
    var Pick(choice, lines, runs) :=
      Choose(w.editor, t.lines, t.runs, cs[0].valueA, cs[0].valueB);
    t1 := t.(lines := lines, runs := runs);
    assert CurrentProps(t1, cs);
    if choice.Some? && choice.value.Ok? && choice.value.value !in {Skip, QuitAll} {
      UploadOne(w, t1, cs, ds);
      t1, goesOn := UploadValue(w, t1, cs[0], ds[0].value).0, true;
      hide UploadValue;
    } else {
      goesOn := choice == Some(Ok(Skip));
      assert forall i | 0 <= i < |cs[1..]| :: cs[1..][i] == cs[i + 1];
    }
  }

  /** Without concurrent edits, and when each side takes its writes or needs none, no write fails;
      every property resolved with a value ends with it on both sides, only the sides that had another
      value being written; every other property is as it was. */
  lemma {:induction false} PropertiesConverge(w: PropertyWorld, t: PropertyTable,
                                              cs: seq<PropertyInfo>)
    requires CurrentProps(t, cs)
    requires WillingProps(w, cs, Values(w, t.lines, t.runs, cs))
    ensures var ds := Values(w, t.lines, t.runs, cs);
            var (t', outcome) := ResolveProperties(w, t, cs);
            && outcome != PropertiesFailed(Upload)
            && (forall i | 0 <= i < |cs| :: Settled(t, t', cs[i], ds[i]))
            && OthersKept(t, t', cs)
            && t'.a.writes == t.a.writes + WritesA(cs, ds)
            && t'.b.writes == t.b.writes + WritesB(cs, ds)
    decreases |cs|
  {
    hide Choose, UploadValue, Values, WillingProps, CurrentProps, Settled, OthersKept, Needed;
    if cs == [] {
      Unwritten(t, [], []);
    } else {
      var ds := Values(w, t.lines, t.runs, cs);
      var (t', _) := ResolveProperties(w, t, cs);
      var t1, goesOn := PropertyTurn(w, t, cs);
      if goesOn {
        WillingRest(w, cs, ds);
        PropertiesConverge(w, t1, cs[1..]);
      } else {
        Unwritten(t1, cs[1..], ds[1..]);
        NothingWritten(cs[1..], ds[1..]);
      }
      hide ResolveProperties;
      OthersCompose(t, t1, t', cs);
      HeadStays(t, t1, t', cs, ds[0]);
      TailSettled(t, t1, t', cs, ds);
    }
  }

  lemma {:induction false} WillingRest(w: PropertyWorld, cs: seq<PropertyInfo>,
                                       ds: seq<Option<string>>)
    requires cs != [] && |ds| == |cs| && WillingProps(w, cs, ds)
    ensures WillingProps(w, cs[1..], ds[1..])
  {
    assert forall i | 0 <= i < |cs[1..]| :: cs[1..][i] == cs[i + 1] && ds[1..][i] == ds[i + 1];
  }

  // ---- How it ends ----------------------------------------------------------------------------

  /** How the user's lines and the editor alone end the questions. */
  function PropertiesEnd(w: PropertyWorld, lines: seq<string>, runs: nat, cs: seq<PropertyInfo>)
    : PropertyOutcome
    decreases |cs|
  {
    if cs == [] then PropertiesDone
    else
      var Pick(choice, rest, runs') := Choose(w.editor, lines, runs, cs[0].valueA, cs[0].valueB);
      match choice
      case None => AsksForEver
      case Some(Err(e)) => PropertiesFailed(e)
      case Some(Ok(QuitAll)) => PropertiesDone
      case Some(Ok(_)) => PropertiesEnd(w, rest, runs', cs[1..])
  }

  /** Some side has to be written the value decided for the `i`-th conflict, and does not accept that
      write, in the order of all its writes. */
  predicate PropertyRefused(w: PropertyWorld, t: PropertyTable, cs: seq<PropertyInfo>,
                            ds: seq<Option<string>>, i: nat)
    requires |ds| == |cs| && i < |cs|
  {
    && ds[i].Some?
    && (|| (ds[i].value != cs[i].valueA
            && !w.repliesA(|t.a.writes| + |WritesA(cs[..i], ds[..i])|).Accept?)
        || (ds[i].value != cs[i].valueB
            && !w.repliesB(|t.b.writes| + |WritesB(cs[..i], ds[..i])|).Accept?))
  }

  predicate SomeRefused(w: PropertyWorld, t: PropertyTable, cs: seq<PropertyInfo>,
                        ds: seq<Option<string>>)
    requires |ds| == |cs|
  {
    exists i :: 0 <= i < |cs| && PropertyRefused(w, t, cs, ds, i)
  }

  /** One turn of the loop. */
  lemma {:induction false} PropertyStep(w: PropertyWorld, t: PropertyTable, cs: seq<PropertyInfo>)
    returns (t1: PropertyTable)
    requires cs != []
    ensures var ds := Values(w, t.lines, t.runs, cs);
            var outcome := ResolveProperties(w, t, cs).1;
            if PropertyRefused(w, t, cs, ds, 0) then outcome == PropertiesFailed(Upload)
            else if forall i | 0 <= i < |ds| :: ds[i].None? then
              || outcome == PropertiesEnd(w, t.lines, t.runs, cs) != PropertiesFailed(Upload)
              || Goes(w, t, t1, cs, ds)
            else Goes(w, t, t1, cs, ds)
  {
    hide Choose, SetValue;
    var Pick(choice, lines, runs) :=
      Choose(w.editor, t.lines, t.runs, cs[0].valueA, cs[0].valueB);
    t1 := t.(lines := lines, runs := runs);
    assert cs[..0] == [];
    if choice.Some? && choice.value.Ok? && choice.value.value !in {Skip, QuitAll} {
      var value := ValueOf(choice.value.value, cs[0]);
      UploadReplies(w, t1, cs[0], value);
      t1 := UploadValue(w, t1, cs[0], value).0;
      hide UploadValue;
    }
  }

  /** The loop goes on from `t1` with the rest of the conflicts and of the decisions. */
  ghost predicate Goes(w: PropertyWorld, t: PropertyTable, t1: PropertyTable, cs: seq<PropertyInfo>,
                       ds: seq<Option<string>>)
    requires |ds| == |cs| && cs != []
  {
    && ResolveProperties(w, t, cs) == ResolveProperties(w, t1, cs[1..])
    && PropertiesEnd(w, t.lines, t.runs, cs) == PropertiesEnd(w, t1.lines, t1.runs, cs[1..])
    && ds[1..] == Values(w, t1.lines, t1.runs, cs[1..])
    && t1.a.writes == t.a.writes + Needed(KeyA(cs[0]), cs[0].valueA, ds[0])
    && t1.b.writes == t.b.writes + Needed(KeyB(cs[0]), cs[0].valueB, ds[0])
  }

  /** One upload: each side is written exactly if it has another value, its write takes effect unless it
      is refused, and all is well if every write needed is accepted. */
  lemma {:induction false} UploadReplies(w: PropertyWorld, t: PropertyTable, c: PropertyInfo,
                                         value: string)
    ensures var (t', ok) := UploadValue(w, t, c, value);
            && (ok <==> (value == c.valueA || w.repliesA(|t.a.writes|).Accept?) &&
                        (value == c.valueB || w.repliesB(|t.b.writes|).Accept?))
            && t'.a.writes == t.a.writes + Needed(KeyA(c), c.valueA, Some(value))
            && t'.b.writes == t.b.writes + Needed(KeyB(c), c.valueB, Some(value))
            && t'.a.values == (if value == c.valueA || w.repliesA(|t.a.writes|).Refuse? then t.a.values
                               else t.a.values[(c.mapping.hrefA, c.property) := value])
            && t'.b.values == (if value == c.valueB || w.repliesB(|t.b.writes|).Refuse? then t.b.values
                               else t.b.values[(c.mapping.hrefB, c.property) := value])
            && t'.lines == t.lines && t'.runs == t.runs
  {
  }

  lemma {:induction false} RefusedLater(w: PropertyWorld, t: PropertyTable, t1: PropertyTable,
                                        cs: seq<PropertyInfo>, ds: seq<Option<string>>, i: nat)
    requires |ds| == |cs| && i + 1 < |cs|
    requires t1.a.writes == t.a.writes + Needed(KeyA(cs[0]), cs[0].valueA, ds[0])
    requires t1.b.writes == t.b.writes + Needed(KeyB(cs[0]), cs[0].valueB, ds[0])
    ensures PropertyRefused(w, t1, cs[1..], ds[1..], i) <==> PropertyRefused(w, t, cs, ds, i + 1)
  {
    hide Needed, KeyA, KeyB;
    assert cs[..i + 1][1..] == cs[1..][..i] && ds[..i + 1][1..] == ds[1..][..i];
    assert cs[..i + 1][0] == cs[0] && ds[..i + 1][0] == ds[0];
  }

  /** The run fails to write exactly when some side does not accept a write that it needs, whatever the
      storages hold; otherwise it ends as the user's lines say. */
  lemma {:induction false} PropertiesEndExactly(w: PropertyWorld, t: PropertyTable,
                                                cs: seq<PropertyInfo>)
    ensures var ds := Values(w, t.lines, t.runs, cs);
            ResolveProperties(w, t, cs).1 ==
              if SomeRefused(w, t, cs, ds) then PropertiesFailed(Upload)
              else PropertiesEnd(w, t.lines, t.runs, cs)
    decreases |cs|
  {
    hide Choose, UploadValue, Values, Needed, WritesA, WritesB;
    if cs != [] {
      var ds := Values(w, t.lines, t.runs, cs);
      var t1 := PropertyStep(w, t, cs);
      hide ResolveProperties, PropertiesEnd;
      if PropertyRefused(w, t, cs, ds, 0) {
        assert SomeRefused(w, t, cs, ds);
      } else if Goes(w, t, t1, cs, ds) {
        PropertiesEndExactly(w, t1, cs[1..]);
        RefusedShift(w, t, t1, cs, ds);
        hide SomeRefused;
      } else {
        assert forall i | 0 <= i < |cs| :: !PropertyRefused(w, t, cs, ds, i);
      }
    }
  }

  lemma {:induction false} RefusedShift(w: PropertyWorld, t: PropertyTable, t1: PropertyTable,
                                        cs: seq<PropertyInfo>, ds: seq<Option<string>>)
    requires |ds| == |cs| && cs != []
    requires t1.a.writes == t.a.writes + Needed(KeyA(cs[0]), cs[0].valueA, ds[0])
    requires t1.b.writes == t.b.writes + Needed(KeyB(cs[0]), cs[0].valueB, ds[0])
    requires !PropertyRefused(w, t, cs, ds, 0)
    ensures SomeRefused(w, t, cs, ds) <==> SomeRefused(w, t1, cs[1..], ds[1..])
  {
    hide PropertyRefused, Needed;
    if i :| 0 <= i < |cs| && PropertyRefused(w, t, cs, ds, i) {
      RefusedLater(w, t, t1, cs, ds, i - 1);
      assert PropertyRefused(w, t1, cs[1..], ds[1..], i - 1);
    }
    if i :| 0 <= i < |cs[1..]| && PropertyRefused(w, t1, cs[1..], ds[1..], i) {
      RefusedLater(w, t, t1, cs, ds, i);
    }
  }
}
