/** Interactive resolution of item conflicts. */
module ItemConflicts {
  import opened Wrappers
  import opened Vstorage
  import opened Plans
  import opened Prompt
  import Text

  /** What running the user's merge command on two files came to. */
  datatype EditorRun =
    | NoTempFile
    | NotStarted
    | BadExit
    | Unreadable
    | Edited(newA: string, newB: string)

  datatype MergeError = CommandFailed | EmptyA | EmptyB | Mismatch

  /** The world: item hashes, the backends' replies, and the editor, whose `n`-th run is on the two
      given texts. */
  datatype World = World(hash: string -> string, repliesA: nat -> Reply, repliesB: nat -> Reply,
                         editor: (nat, string, string) -> EditorRun)

  /** Validation of a merge: both files readable, not blank, and equal but for blanks around. */
  function Merged(run: EditorRun): Result<string, MergeError> {
    if !run.Edited? then Err(CommandFailed)
    else if Text.Trim(run.newA) == "" then Err(EmptyA)
    else if Text.Trim(run.newB) == "" then Err(EmptyB)
    else if Text.Trim(run.newA) != Text.Trim(run.newB) then Err(Mismatch)
    else Ok(run.newA)
  }

  /** Both texts are `t`, which has no blank at its edges, but for blanks at their ends. */
  ghost predicate BothFrame(a: string, b: string, t: string) {
    && Text.Trimmed(t)
    && (exists i, j :: Text.Frames(a, i, t, j))
    && (exists i, j :: Text.Frames(b, i, t, j))
  }

  lemma {:induction false} SameTrimmed(a: string, b: string)
    ensures (exists t :: BothFrame(a, b, t)) <==> Text.Trim(a) == Text.Trim(b)
  {
    hide Text.Trim, Text.Trimmed, Text.Frames;
    if t :| BothFrame(a, b, t) {
      Text.TrimExactly(a, t);
      Text.TrimExactly(b, t);
    }
    if Text.Trim(a) == Text.Trim(b) {
      Text.TrimIsFramed(a);
      Text.TrimIsFramed(b);
      assert BothFrame(a, b, Text.Trim(a));
    }
  }

  /** A merge is accepted exactly when the command succeeded and left two readable files that are not
      blank and the same but for blanks at their ends; otherwise the first reason counts. A's file
      is taken, blanks included. */
  lemma {:induction false} MergedExactly(run: EditorRun)
    ensures Merged(run) ==
            if !run.Edited? then Err(CommandFailed)
            else if Text.Blank(run.newA) then Err(EmptyA)
            else if Text.Blank(run.newB) then Err(EmptyB)
            else if exists t :: BothFrame(run.newA, run.newB, t) then Ok(run.newA)
            else Err(Mismatch)
  {
    if run.Edited? {
      Text.TrimEmpty(run.newA);
      Text.TrimEmpty(run.newB);
      SameTrimmed(run.newA, run.newB);
      hide BothFrame, Text.Trim, Text.Blank;
    }
  }

  class Editor {
    const run: (nat, string, string) -> EditorRun
    var runs: nat

    constructor (run: (nat, string, string) -> EditorRun)
      ensures this.run == run && runs == 0
    {
      this.run := run;
      runs := 0;
    }

    method Run(a: string, b: string) returns (r: EditorRun)
      modifies this
      ensures r == run(old(runs), a, b) && runs == old(runs) + 1
    {
      r := run(runs, a, b);
      runs := runs + 1;
    }
  }

  datatype ResolveError = TempFile | Upload

  /** The decision that a run of the editor makes for a conflict. */
  function Decided(run: EditorRun): Option<string> {
    match Merged(run) case Ok(text) => Some(text) case Err(_) => None
  }

  // ---- Specification: decisions, then each side by itself -------------------------------------

  /** For each conflict, the text it is to be resolved with, if it is resolved at all. This is up to
      the user's lines and the editor alone; a `No`, a bad merge, `Quit` and what comes after it, and
      a failure to write temporary files and what comes after it, all give None. */
  function Decisions(w: World, lines: seq<string>, runs: nat, cs: seq<ItemConflict>)
    : (ds: seq<Option<string>>)
    ensures |ds| == |cs|
    decreases |cs|
  {
    if cs == [] then []
    else
      var (answer, rest) := Ask(lines);
      match answer
      case Quit => seq(|cs|, _ => None)
      case No => [None] + Decisions(w, rest, runs, cs[1..])
      case Yes =>
        var run := w.editor(runs, cs[0].dataA, cs[0].dataB);
        if run.NoTempFile? then seq(|cs|, _ => None)
        else
          [Decided(run)] + Decisions(w, rest, runs + 1, cs[1..])
  }

  /** One side of one conflict: the version in conflict, its text, and the decision. */
  datatype Change = Change(ref: Version, data: string, decision: Option<string>)

  /** The side has to be written: it does not have the decided contents yet. */
  predicate Writes(hash: string -> string, c: Change) {
    c.decision.Some? && hash(c.decision.value) != hash(c.data)
  }

  function ApplyChange(hash: string -> string, replies: nat -> Reply, s: Store<string>, c: Change)
    : (Store<string>, bool)
  {
    if Writes(hash, c) then
      Update(s, replies(|s.updates|), c.ref.href, c.ref.etag, c.decision.value)
    else (s, true)
  }

  function ApplyChanges(hash: string -> string, replies: nat -> Reply, s: Store<string>,
                        cs: seq<Change>): Store<string>
    decreases |cs|
  {
    if cs == [] then s
    else ApplyChanges(hash, replies, ApplyChange(hash, replies, s, cs[0]).0, cs[1..])
  }

  function SideA(cs: seq<ItemConflict>, ds: seq<Option<string>>): (r: seq<Change>)
    requires |cs| == |ds|
    ensures |r| == |cs|
    ensures forall i | 0 <= i < |cs| :: r[i] == Change(cs[i].refA, cs[i].dataA, ds[i])
  {
    if cs == [] then []
    else [Change(cs[0].refA, cs[0].dataA, ds[0])] + SideA(cs[1..], ds[1..])
  }

  function SideB(cs: seq<ItemConflict>, ds: seq<Option<string>>): (r: seq<Change>)
    requires |cs| == |ds|
    ensures |r| == |cs|
    ensures forall i | 0 <= i < |cs| :: r[i] == Change(cs[i].refB, cs[i].dataB, ds[i])
  {
    if cs == [] then []
    else [Change(cs[0].refB, cs[0].dataB, ds[0])] + SideB(cs[1..], ds[1..])
  }

  // ---- The program, as one fold ---------------------------------------------------------------

  datatype Table = Table(a: Store<string>, b: Store<string>, lines: seq<string>, runs: nat)

  /** How a run over the conflicts ended. */
  datatype Outcome = Through | QuitByUser | Failed(error: ResolveError)

  /** Upload the decided text to the sides that need it; both are tried, then errors count. */
  function UploadResolved(w: World, t: Table, c: ItemConflict, text: string): (Table, bool) {
    var (a, okA) := ApplyChange(w.hash, w.repliesA, t.a, Change(c.refA, c.dataA, Some(text)));
    var (b, okB) := ApplyChange(w.hash, w.repliesB, t.b, Change(c.refB, c.dataB, Some(text)));
    (t.(a := a, b := b), okA && okB)
  }

  /** One conflict: how the table stands after it, and, unless it is to go on, how the run ends. */
  function ResolveOne(w: World, t: Table, c: ItemConflict): (Table, Option<Outcome>) {
    var (answer, rest) := Ask(t.lines);
    var t1 := t.(lines := rest);
    match answer
    case Quit => (t1, Some(QuitByUser))
    case No => (t1, None)
    case Yes =>
      var run := w.editor(t.runs, c.dataA, c.dataB);
      var t2 := t1.(runs := t.runs + 1);
      if run.NoTempFile? then (t2, Some(Failed(TempFile)))
      else
        match Merged(run)
        case Err(_) => (t2, None)
        case Ok(text) =>
          var (t3, ok) := UploadResolved(w, t2, c, text);
          (t3, if ok then None else Some(Failed(Upload)))
  }

  function ResolveItems(w: World, t: Table, cs: seq<ItemConflict>): (Table, Outcome)
    decreases |cs|
  {
    if cs == [] then (t, Through)
    else
      var (t', end) := ResolveOne(w, t, cs[0]);
      if end.Some? then (t', end.value) else ResolveItems(w, t', cs[1..])
  }

  ghost predicate Holds(w: World, t: Table, a: Storage<string>, b: Storage<string>, input: Input,
                        editor: Editor)
    reads a, b, input, editor
  {
    && a.replies == w.repliesA && b.replies == w.repliesB && editor.run == w.editor
    && a.store == t.a && b.store == t.b && input.lines == t.lines && editor.runs == t.runs
  }

  method RunMergeCommand(run: EditorRun) returns (r: Result<string, MergeError>)
    ensures r == Merged(run)
    ensures r.Ok? ==> run.Edited? && r.value == run.newA && !Text.Blank(r.value)
  {
    hide Text.Trim;
    if !run.Edited? {
      return Err(CommandFailed);
    }
    if Text.Trim(run.newA) == "" {
      return Err(EmptyA);
    }
    if Text.Trim(run.newB) == "" {
      return Err(EmptyB);
    }
    if Text.Trim(run.newA) != Text.Trim(run.newB) {
      return Err(Mismatch);
    }
    Text.TrimEmpty(run.newA);
    return Ok(run.newA);
  }

  method UploadResolvedItem(w: World, a: Storage<string>, b: Storage<string>, c: ItemConflict,
                            text: string, ghost t: Table, input: Input, editor: Editor)
    returns (ok: bool)
    requires a != b && Holds(w, t, a, b, input, editor)
    modifies a, b
    ensures var (t', ok') := UploadResolved(w, t, c, text);
            ok == ok' && Holds(w, t', a, b, input, editor)
  {
    var resultA, resultB := true, true;
    if w.hash(text) != w.hash(c.dataA) {
      resultA := a.UpdateItem(c.refA.href, c.refA.etag, text);
    }
    if w.hash(text) != w.hash(c.dataB) {
      resultB := b.UpdateItem(c.refB.href, c.refB.etag, text);
    }
    ok := resultA && resultB;
  }

  /** Returns false if the user chose to quit. */
  method ResolveItemConflicts(w: World, a: Storage<string>, b: Storage<string>, input: Input,
                              editor: Editor, conflicts: seq<ItemConflict>, ghost t0: Table)
    returns (r: Result<bool, ResolveError>)
    requires a != b && Holds(w, t0, a, b, input, editor)
    modifies a, b, input, editor
    ensures var (t, outcome) := ResolveItems(w, t0, conflicts);
            && Holds(w, t, a, b, input, editor)
            && r == match outcome
                    case Through => Ok(true)
                    case QuitByUser => Ok(false)
                    case Failed(e) => Err(e)
  {
    ghost var t := t0;
    var i := 0;
    while i < |conflicts|
      invariant i <= |conflicts|
      invariant Holds(w, t, a, b, input, editor)
      invariant ResolveItems(w, t, conflicts[i..]) == ResolveItems(w, t0, conflicts)
    {
      var info := conflicts[i];
      ghost var next := ResolveOne(w, t, info);
      i := i + 1;
      var answer := ContinueSkipOrQuit(input);
      match answer {
        case Yes =>
          var run := editor.Run(info.dataA, info.dataB);
          if run.NoTempFile? {
            return Err(TempFile);
          }
          var new_ := RunMergeCommand(run);
          if new_.Ok? {
            var ok := UploadResolvedItem(w, a, b, info, new_.value,
                                         t.(lines := input.lines, runs := editor.runs), input, editor);
            if !ok {
              return Err(Upload);
            }
          }
        case No =>
        case Quit =>
          return Ok(false);
      }
      t := next.0;
    }
    return Ok(true);
  }
}
