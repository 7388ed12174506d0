/** What resolving item conflicts leaves on both sides. */
module ConflictTheorems {
  import opened Wrappers
  import opened Vstorage
  import opened Plans
  import opened Prompt
  import opened ItemConflicts

  // ---- One side -------------------------------------------------------------------------------

  /** Nobody else edited: every change refers to the entry that is there, and no two to the same. */
  ghost predicate Current(s: Store<string>, cs: seq<Change>) {
    && (forall i | 0 <= i < |cs| ::
          && cs[i].ref.href in s.entries
          && s.entries[cs[i].ref.href].etag == cs[i].ref.etag
          && s.entries[cs[i].ref.href].item == cs[i].data)
    && (forall i, j | 0 <= i < j < |cs| :: cs[i].ref.href != cs[j].ref.href)
  }

  /** The side takes its updates, or needs none. */
  ghost predicate Willing(hash: string -> string, replies: nat -> Reply, cs: seq<Change>) {
    || (forall n: nat :: replies(n).Accept?)
    || (forall i | 0 <= i < |cs| :: !Writes(hash, cs[i]))
  }

  /** The hrefs that have to be written, in order. */
  function Written(hash: string -> string, cs: seq<Change>): seq<string> {
    if cs == [] then []
    else (if Writes(hash, cs[0]) then [cs[0].ref.href] else []) + Written(hash, cs[1..])
  }

  ghost predicate Affects(cs: seq<Change>, href: string) {
    exists i :: 0 <= i < |cs| && cs[i].ref.href == href
  }

  lemma {:induction false} OthersStay(hash: string -> string, replies: nat -> Reply,
                                      s: Store<string>, cs: seq<Change>, href: string)
    requires !Affects(cs, href)
    ensures var s' := ApplyChanges(hash, replies, s, cs);
            && s'.entries.Keys == s.entries.Keys
            && (href in s.entries ==> s'.entries[href] == s.entries[href])
    decreases |cs|
  {
    if cs != [] {
      assert cs[0].ref.href != href;
      assert forall i | 0 <= i < |cs[1..]| :: cs[1..][i] == cs[i + 1];
      OthersStay(hash, replies, ApplyChange(hash, replies, s, cs[0]).0, cs[1..], href);
    }
  }

  lemma {:induction false} CurrentRest(hash: string -> string, replies: nat -> Reply,
                                       s: Store<string>, cs: seq<Change>)
    requires cs != [] && Current(s, cs)
    ensures Current(ApplyChange(hash, replies, s, cs[0]).0, cs[1..])
    ensures !Affects(cs[1..], cs[0].ref.href)
  {
    assert forall i | 0 <= i < |cs[1..]| :: cs[1..][i] == cs[i + 1];
  }

  /** What a willing side holds afterwards, and which of its items were written. */
  lemma {:induction false} SideResult(hash: string -> string, replies: nat -> Reply,
                                      s: Store<string>, cs: seq<Change>)
    requires Current(s, cs) && Willing(hash, replies, cs)
    ensures var s' := ApplyChanges(hash, replies, s, cs);
            && s'.entries.Keys == s.entries.Keys
            && s'.updates == s.updates + Written(hash, cs)
            && (forall i | 0 <= i < |cs| ::
                  if Writes(hash, cs[i]) then
                    s'.entries[cs[i].ref.href].item == cs[i].decision.value
                  else s'.entries[cs[i].ref.href] == s.entries[cs[i].ref.href])
    decreases |cs|
  {
    if cs != [] {
      var s1 := ApplyChange(hash, replies, s, cs[0]).0;
      var s' := ApplyChanges(hash, replies, s, cs);
      CurrentRest(hash, replies, s, cs);
      assert forall i | 0 <= i < |cs[1..]| :: cs[1..][i] == cs[i + 1];
      SideResult(hash, replies, s1, cs[1..]);
      OthersStay(hash, replies, s1, cs[1..], cs[0].ref.href);
      forall i | 0 <= i < |cs|
        ensures if Writes(hash, cs[i]) then s'.entries[cs[i].ref.href].item == cs[i].decision.value
                else s'.entries[cs[i].ref.href] == s.entries[cs[i].ref.href]
      {
        if i > 0 {
          assert cs[1..][i - 1] == cs[i] && cs[i].ref.href != cs[0].ref.href;
        }
      }
    }
  }

  lemma {:induction false} UndecidedSide(hash: string -> string, replies: nat -> Reply,
                                         s: Store<string>, cs: seq<Change>)
    requires forall i | 0 <= i < |cs| :: cs[i].decision.None?
    ensures ApplyChanges(hash, replies, s, cs) == s
    ensures forall i | 0 <= i < |cs| :: !Fails(hash, replies, s, cs, i)
    decreases |cs|
  {
    if cs != [] {
      UndecidedSide(hash, replies, s, cs[1..]);
    }
  }

  // ---- Both sides -----------------------------------------------------------------------------

  ghost predicate BothCurrent(t: Table, cs: seq<ItemConflict>, ds: seq<Option<string>>)
    requires |cs| == |ds|
  {
    Current(t.a, SideA(cs, ds)) && Current(t.b, SideB(cs, ds))
  }

  ghost predicate BothWilling(w: World, cs: seq<ItemConflict>, ds: seq<Option<string>>)
    requires |cs| == |ds|
  {
    Willing(w.hash, w.repliesA, SideA(cs, ds)) && Willing(w.hash, w.repliesB, SideB(cs, ds))
  }

  predicate Undecided(ds: seq<Option<string>>) {
    forall i | 0 <= i < |ds| :: ds[i].None?
  }

  lemma {:induction false} DecisionsUnfold(w: World, lines: seq<string>, runs: nat,
                                           cs: seq<ItemConflict>)
    requires cs != []
    ensures var ds := Decisions(w, lines, runs, cs);
            var (answer, rest) := Ask(lines);
            var run := w.editor(runs, cs[0].dataA, cs[0].dataB);
            if answer.Quit? || (answer.Yes? && run.NoTempFile?) then Undecided(ds)
            else if answer.No? then
              ds[0] == None && ds[1..] == Decisions(w, rest, runs, cs[1..])
            else
              ds[0] == Decided(run) && ds[1..] == Decisions(w, rest, runs + 1, cs[1..])
  {
    hide Ask, Merged;
    var rest := Ask(lines).1;
    var run := w.editor(runs, cs[0].dataA, cs[0].dataB);
    assert ([Decided(run)] + Decisions(w, rest, runs + 1, cs[1..]))[1..] ==
           Decisions(w, rest, runs + 1, cs[1..]);
  }

  /** One turn of the loop applies the first change to each side, ends with a failed upload exactly if
      one of these failed, and otherwise ends only when nothing more is decided. */
  lemma {:induction false} HeadStep(w: World, t: Table, cs: seq<ItemConflict>)
    requires cs != []
    ensures var ds := Decisions(w, t.lines, t.runs, cs);
            var (t', end) := ResolveOne(w, t, cs[0]);
            var (a, okA) := ApplyChange(w.hash, w.repliesA, t.a, SideA(cs, ds)[0]);
            var (b, okB) := ApplyChange(w.hash, w.repliesB, t.b, SideB(cs, ds)[0]);
            && t'.a == a && t'.b == b
            && (end == Some(Failed(Upload)) <==> !okA || !okB)
            && (end.None? ==> ds[1..] == Decisions(w, t'.lines, t'.runs, cs[1..]))
            && (end.Some? && end.value != Failed(Upload) ==> Undecided(ds))
  {
    hide Ask, Merged, SideA, SideB, Decisions, Update;
    var ds := Decisions(w, t.lines, t.runs, cs);
    assert SideA(cs, ds)[0] == Change(cs[0].refA, cs[0].dataA, ds[0]);
    assert SideB(cs, ds)[0] == Change(cs[0].refB, cs[0].dataB, ds[0]);
    DecisionsUnfold(w, t.lines, t.runs, cs);
    var (answer, rest) := Ask(t.lines);
    var run := w.editor(t.runs, cs[0].dataA, cs[0].dataB);
    match answer
    case Quit => assert ds[0].None?;
    case No =>
    case Yes =>
      if run.NoTempFile? {
        assert ds[0].None?;
      } else if Merged(run).Ok? {
        assert ds[0] == Some(Merged(run).value);
      } else {
        assert ds[0] == None;
      }
  }

  /** The `i`-th change is one that the side reports as failed, after the changes before it. */
  predicate Fails(hash: string -> string, replies: nat -> Reply, s: Store<string>, cs: seq<Change>,
                  i: nat)
    requires i < |cs|
  {
    !ApplyChange(hash, replies, ApplyChanges(hash, replies, s, cs[..i]), cs[i]).1
  }

  lemma {:induction false} FailsLater(hash: string -> string, replies: nat -> Reply,
                                      s: Store<string>, cs: seq<Change>, i: nat)
    requires i + 1 < |cs|
    ensures Fails(hash, replies, s, cs, i + 1) <==>
            Fails(hash, replies, ApplyChange(hash, replies, s, cs[0]).0, cs[1..], i)
  {
    assert cs[..i + 1][1..] == cs[1..][..i];
    hide ApplyChange;
  }

  /** The `i`-th upload fails on some side. */
  predicate UploadFails(w: World, t: Table, cs: seq<ItemConflict>, ds: seq<Option<string>>, i: nat)
    requires |ds| == |cs| && i < |cs|
  {
    || Fails(w.hash, w.repliesA, t.a, SideA(cs, ds), i)
    || Fails(w.hash, w.repliesB, t.b, SideB(cs, ds), i)
  }

  /** Both sides have had the first `n` changes. */
  predicate DoneUpTo(w: World, t: Table, cs: seq<ItemConflict>, ds: seq<Option<string>>, t': Table,
                     n: nat)
    requires |ds| == |cs| && n <= |cs|
  {
    && t'.a == ApplyChanges(w.hash, w.repliesA, t.a, SideA(cs, ds)[..n])
    && t'.b == ApplyChanges(w.hash, w.repliesB, t.b, SideB(cs, ds)[..n])
  }

  /** Both sides after the first conflict. */
  function AfterFirst(w: World, t: Table, cs: seq<ItemConflict>, ds: seq<Option<string>>): Table
    requires |ds| == |cs| && cs != []
  {
    t.(a := ApplyChange(w.hash, w.repliesA, t.a, SideA(cs, ds)[0]).0,
       b := ApplyChange(w.hash, w.repliesB, t.b, SideB(cs, ds)[0]).0)
  }

  lemma {:induction false} Later(w: World, t: Table, t1: Table, cs: seq<ItemConflict>,
                                 ds: seq<Option<string>>, t': Table, n: nat)
    requires |ds| == |cs| && 0 < n <= |cs|
    requires t1.a == AfterFirst(w, t, cs, ds).a && t1.b == AfterFirst(w, t, cs, ds).b
    ensures DoneUpTo(w, t1, cs[1..], ds[1..], t', n - 1) <==> DoneUpTo(w, t, cs, ds, t', n)
    ensures n < |cs| ==>
              (UploadFails(w, t1, cs[1..], ds[1..], n - 1) <==> UploadFails(w, t, cs, ds, n))
  {
    var as_, bs := SideA(cs, ds), SideB(cs, ds);
    assert as_[1..] == SideA(cs[1..], ds[1..]) && bs[1..] == SideB(cs[1..], ds[1..]);
    assert as_[..n][1..] == as_[1..][..n - 1] && bs[..n][1..] == bs[1..][..n - 1];
    hide ApplyChange, SideA, SideB, Fails;
    if n < |cs| {
      FailsLater(w.hash, w.repliesA, t.a, as_, n - 1);
      FailsLater(w.hash, w.repliesB, t.b, bs, n - 1);
    }
  }

  lemma {:induction false} First(w: World, t: Table, cs: seq<ItemConflict>,
                                 ds: seq<Option<string>>, t': Table)
    requires |ds| == |cs| && cs != []
    ensures UploadFails(w, t, cs, ds, 0) <==>
            !(ApplyChange(w.hash, w.repliesA, t.a, SideA(cs, ds)[0]).1 &&
              ApplyChange(w.hash, w.repliesB, t.b, SideB(cs, ds)[0]).1)
    ensures t'.a == AfterFirst(w, t, cs, ds).a && t'.b == AfterFirst(w, t, cs, ds).b ==>
              DoneUpTo(w, t, cs, ds, t', 1)
  {
    var as_, bs := SideA(cs, ds), SideB(cs, ds);
    assert as_[..0] == [] && bs[..0] == [];
    assert as_[..1] == [as_[0]] && as_[..1][1..] == [];
    assert bs[..1] == [bs[0]] && bs[..1][1..] == [];
    hide ApplyChange, SideA, SideB;
    var first := AfterFirst(w, t, cs, ds);
    assert ApplyChanges(w.hash, w.repliesA, first.a, []) == first.a;
    assert ApplyChanges(w.hash, w.repliesB, first.b, []) == first.b;
  }

  lemma {:induction false} UndecidedRun(w: World, t: Table, cs: seq<ItemConflict>,
                                        ds: seq<Option<string>>)
    requires |ds| == |cs| && Undecided(ds)
    ensures DoneUpTo(w, t, cs, ds, t, |cs|)
    ensures forall i | 0 <= i < |cs| :: !UploadFails(w, t, cs, ds, i)
  {
    var as_, bs := SideA(cs, ds), SideB(cs, ds);
    assert as_[..|cs|] == as_ && bs[..|cs|] == bs;
    UndecidedSide(w.hash, w.repliesA, t.a, as_);
    UndecidedSide(w.hash, w.repliesB, t.b, bs);
  }

  /** The loop applies to each side exactly the changes decided, in order, up to and including the
      first upload that fails on some side, which ends it; if none does, all of them. */
  lemma {:induction false} RunIsDecisions(w: World, t: Table, cs: seq<ItemConflict>)
    ensures var ds := Decisions(w, t.lines, t.runs, cs);
            var (t', outcome) := ResolveItems(w, t, cs);
            if outcome == Failed(Upload) then
              exists i :: 0 <= i < |cs| && UploadFails(w, t, cs, ds, i)
                          && DoneUpTo(w, t, cs, ds, t', i + 1)
                          && forall j | 0 <= j < i :: !UploadFails(w, t, cs, ds, j)
            else
              && DoneUpTo(w, t, cs, ds, t', |cs|)
              && forall i | 0 <= i < |cs| :: !UploadFails(w, t, cs, ds, i)
    decreases |cs|
  {
    var ds := Decisions(w, t.lines, t.runs, cs);
    hide ResolveOne, Decisions, UploadFails, DoneUpTo;
    if cs == [] {
      UndecidedRun(w, t, cs, ds);
    } else {
      var (t1, end) := ResolveOne(w, t, cs[0]);
      var (t', outcome) := ResolveItems(w, t, cs);
      HeadStep(w, t, cs);
      First(w, t, cs, ds, t1);
      if end.None? {
        RunIsDecisions(w, t1, cs[1..]);
        hide ApplyChange, ResolveItems;
        Lift(w, t, t1, cs, ds, t', outcome);
      } else if end.value == Failed(Upload) {
        assert DoneUpTo(w, t, cs, ds, t', 0 + 1);
      } else {
        UndecidedRun(w, t, cs, ds);
        UndecidedFirst(w, t, cs, ds);
        assert t' == t1 && t1.a == t.a && t1.b == t.b;
        SameDone(w, t, cs, ds, t', |cs|);
      }
    }
  }

  lemma {:induction false} SameDone(w: World, t: Table, cs: seq<ItemConflict>,
                                    ds: seq<Option<string>>, t': Table, n: nat)
    requires |ds| == |cs| && n <= |cs| && DoneUpTo(w, t, cs, ds, t, n)
    requires t'.a == t.a && t'.b == t.b
    ensures DoneUpTo(w, t, cs, ds, t', n)
  {
  }

  lemma {:induction false} UndecidedFirst(w: World, t: Table, cs: seq<ItemConflict>,
                                          ds: seq<Option<string>>)
    requires |ds| == |cs| && Undecided(ds) && cs != []
    ensures AfterFirst(w, t, cs, ds) == t
  {
  }

  /** What holds of the rest of the list, said of the whole. */
  lemma {:induction false} Lift(w: World, t: Table, t1: Table, cs: seq<ItemConflict>,
                                ds: seq<Option<string>>, t': Table, outcome: Outcome)
    requires |ds| == |cs| && cs != []
    requires t1.a == AfterFirst(w, t, cs, ds).a && t1.b == AfterFirst(w, t, cs, ds).b
    requires !UploadFails(w, t, cs, ds, 0)
    requires if outcome == Failed(Upload) then
               exists i :: 0 <= i < |cs[1..]| && UploadFails(w, t1, cs[1..], ds[1..], i)
                           && DoneUpTo(w, t1, cs[1..], ds[1..], t', i + 1)
                           && forall j | 0 <= j < i :: !UploadFails(w, t1, cs[1..], ds[1..], j)
             else
               && DoneUpTo(w, t1, cs[1..], ds[1..], t', |cs[1..]|)
               && forall i | 0 <= i < |cs[1..]| :: !UploadFails(w, t1, cs[1..], ds[1..], i)
    ensures if outcome == Failed(Upload) then
              exists i :: 0 <= i < |cs| && UploadFails(w, t, cs, ds, i)
                          && DoneUpTo(w, t, cs, ds, t', i + 1)
                          && forall j | 0 <= j < i :: !UploadFails(w, t, cs, ds, j)
            else
              && DoneUpTo(w, t, cs, ds, t', |cs|)
              && forall i | 0 <= i < |cs| :: !UploadFails(w, t, cs, ds, i)
  {
    hide AfterFirst, UploadFails, DoneUpTo;
    forall i | 0 < i < |cs|
      ensures UploadFails(w, t, cs, ds, i) <==> UploadFails(w, t1, cs[1..], ds[1..], i - 1)
    {
      Later(w, t, t1, cs, ds, t', i);
    }
    if outcome == Failed(Upload) {
      var i :| 0 <= i < |cs[1..]| && UploadFails(w, t1, cs[1..], ds[1..], i)
               && DoneUpTo(w, t1, cs[1..], ds[1..], t', i + 1)
               && forall j | 0 <= j < i :: !UploadFails(w, t1, cs[1..], ds[1..], j);
      Later(w, t, t1, cs, ds, t', i + 2);
      assert UploadFails(w, t, cs, ds, i + 1) && DoneUpTo(w, t, cs, ds, t', (i + 1) + 1);
    } else {
      Later(w, t, t1, cs, ds, t', |cs|);
    }
  }

  // ---- When an upload fails -------------------------------------------------------------------

  /** The version in conflict is not there any more. */
  predicate Stale(s: Store<string>, c: Change) {
    c.ref.href !in s.entries || s.entries[c.ref.href].etag != c.ref.etag
  }

  /** One side of one conflict. Nothing happens if nothing is decided, or the side has contents of the
      decided hash already. Otherwise one update is attempted; it changes nothing and fails if the
      version in conflict is not there any more or the backend refuses, and is otherwise made, and
      reported unless the reply is lost. */
  lemma {:induction false} ChangeExactly(hash: string -> string, replies: nat -> Reply,
                                         s: Store<string>, c: Change)
    ensures var (s', ok) := ApplyChange(hash, replies, s, c);
            if c.decision.None? || hash(c.decision.value) == hash(c.data) then s' == s && ok
            else
              && s'.updates == s.updates + [c.ref.href]
              && if Stale(s, c) || replies(|s.updates|).Refuse? then
                   s'.entries == s.entries && !ok
                 else
                   && s'.entries == s.entries[c.ref.href :=
                        Entry(s.entries[c.ref.href].collection, c.ref.etag + 1, c.decision.value)]
                   && (ok <==> replies(|s.updates|).Accept?)
  {
  }

  lemma {:induction false} UpdatesLogged(hash: string -> string, replies: nat -> Reply,
                                         s: Store<string>, cs: seq<Change>)
    ensures ApplyChanges(hash, replies, s, cs).updates == s.updates + Written(hash, cs)
    decreases |cs|
  {
    if cs != [] {
      ChangeExactly(hash, replies, s, cs[0]);
      UpdatesLogged(hash, replies, ApplyChange(hash, replies, s, cs[0]).0, cs[1..]);
      hide ApplyChange, Stale;
    }
  }

  /** The `i`-th change has to be written, but its version is gone after the changes before it, or its
      update, in the order of all updates of the side, is not accepted. */
  predicate NotAccepted(hash: string -> string, replies: nat -> Reply, s: Store<string>,
                        cs: seq<Change>, i: nat)
    requires i < |cs|
  {
    && Writes(hash, cs[i])
    && (|| Stale(ApplyChanges(hash, replies, s, cs[..i]), cs[i])
        || !replies(|s.updates| + |Written(hash, cs[..i])|).Accept?)
  }

  lemma {:induction false} FailsExactly(hash: string -> string, replies: nat -> Reply,
                                        s: Store<string>, cs: seq<Change>, i: nat)
    requires i < |cs|
    ensures Fails(hash, replies, s, cs, i) <==> NotAccepted(hash, replies, s, cs, i)
  {
    UpdatesLogged(hash, replies, s, cs[..i]);
    ChangeExactly(hash, replies, ApplyChanges(hash, replies, s, cs[..i]), cs[i]);
    hide ApplyChanges, ApplyChange, Written;
  }

  ghost predicate Distinct(cs: seq<Change>) {
    forall i, j | 0 <= i < j < |cs| :: cs[i].ref.href != cs[j].ref.href
  }

  /** When no two changes are to one item, only somebody else can have made a version stale. */
  lemma {:induction false} StaleFromTheStart(hash: string -> string, replies: nat -> Reply,
                                             s: Store<string>, cs: seq<Change>, i: nat)
    requires Distinct(cs) && i < |cs|
    ensures Stale(ApplyChanges(hash, replies, s, cs[..i]), cs[i]) <==> Stale(s, cs[i])
  {
    assert forall j | 0 <= j < |cs[..i]| :: cs[..i][j] == cs[j];
    OthersStay(hash, replies, s, cs[..i], cs[i].ref.href);
  }

  lemma {:induction false} CurrentFailsExactly(hash: string -> string, replies: nat -> Reply,
                                               s: Store<string>, cs: seq<Change>, i: nat)
    requires Current(s, cs) && i < |cs|
    ensures Fails(hash, replies, s, cs, i) <==>
            Writes(hash, cs[i]) && !replies(|s.updates| + |Written(hash, cs[..i])|).Accept?
  {
    FailsExactly(hash, replies, s, cs, i);
    StaleFromTheStart(hash, replies, s, cs, i);
    hide Fails, ApplyChanges, Written;
  }

  lemma {:induction false} WillingNeverFails(hash: string -> string, replies: nat -> Reply,
                                             s: Store<string>, cs: seq<Change>, i: nat)
    requires Current(s, cs) && Willing(hash, replies, cs) && i < |cs|
    ensures !Fails(hash, replies, s, cs, i)
  {
    CurrentFailsExactly(hash, replies, s, cs, i);
  }

  /** The `i`-th upload is stale, or not accepted, on some side. */
  predicate UploadNotAccepted(w: World, t: Table, cs: seq<ItemConflict>, ds: seq<Option<string>>,
                              i: nat)
    requires |ds| == |cs| && i < |cs|
  {
    || NotAccepted(w.hash, w.repliesA, t.a, SideA(cs, ds), i)
    || NotAccepted(w.hash, w.repliesB, t.b, SideB(cs, ds), i)
  }

  predicate SomeNotAccepted(w: World, t: Table, cs: seq<ItemConflict>, ds: seq<Option<string>>)
    requires |ds| == |cs|
  {
    exists i :: 0 <= i < |cs| && UploadNotAccepted(w, t, cs, ds, i)
  }

  lemma {:induction false} UploadFailsExactly(w: World, t: Table, cs: seq<ItemConflict>,
                                              ds: seq<Option<string>>, i: nat)
    requires |ds| == |cs| && i < |cs|
    ensures UploadFails(w, t, cs, ds, i) <==> UploadNotAccepted(w, t, cs, ds, i)
  {
    hide SideA, SideB;
    FailsExactly(w.hash, w.repliesA, t.a, SideA(cs, ds), i);
    FailsExactly(w.hash, w.repliesB, t.b, SideB(cs, ds), i);
    hide Fails, NotAccepted;
  }

  lemma {:induction false} SomeMeans(w: World, t: Table, cs: seq<ItemConflict>,
                                     ds: seq<Option<string>>)
    requires |ds| == |cs|
    ensures SomeNotAccepted(w, t, cs, ds) <==>
            exists i :: 0 <= i < |cs| && UploadNotAccepted(w, t, cs, ds, i)
  {
    hide UploadNotAccepted;
  }

  /** The run fails exactly when some decided write, of either side, is stale or not accepted, whatever
      anybody else did to the storages and whatever they do with the other writes. */
  lemma {:induction false} RunFailsExactly(w: World, t: Table, cs: seq<ItemConflict>)
    ensures ResolveItems(w, t, cs).1 == Failed(Upload) <==>
            SomeNotAccepted(w, t, cs, Decisions(w, t.lines, t.runs, cs))
  {
    hide UploadNotAccepted, UploadFails, ResolveItems, Decisions, DoneUpTo;
    var ds := Decisions(w, t.lines, t.runs, cs);
    RunIsDecisions(w, t, cs);
    forall i | 0 <= i < |cs|
      ensures UploadFails(w, t, cs, ds, i) <==> UploadNotAccepted(w, t, cs, ds, i)
    {
      UploadFailsExactly(w, t, cs, ds, i);
    }
  }

  // ---- Edits of others survive ----------------------------------------------------------------

  /** The `i`-th change is a write to this entry, in the version in conflict. */
  predicate WritesEntry(hash: string -> string, c: Change, href: string, entry: Entry<string>) {
    c.ref == Version(href, entry.etag) && Writes(hash, c)
  }

  lemma {:induction false} ChangedAsDecided(hash: string -> string, replies: nat -> Reply,
                                            s: Store<string>, cs: seq<Change>, href: string)
    requires href in s.entries
    ensures var s' := ApplyChanges(hash, replies, s, cs);
            && s'.entries.Keys == s.entries.Keys
            && (s'.entries[href] != s.entries[href] ==>
                  exists i :: 0 <= i < |cs| && WritesEntry(hash, cs[i], href, s.entries[href])
                    && (Distinct(cs) ==>
                          s'.entries[href] == Entry(s.entries[href].collection,
                                                    s.entries[href].etag + 1,
                                                    cs[i].decision.value)))
    decreases |cs|
  {
    if cs != [] {
      var s1 := ApplyChange(hash, replies, s, cs[0]).0;
      var s' := ApplyChanges(hash, replies, s, cs);
      ChangeExactly(hash, replies, s, cs[0]);
      hide ApplyChange, Writes;
      assert forall i | 0 <= i < |cs[1..]| :: cs[1..][i] == cs[i + 1];
      ChangedAsDecided(hash, replies, s1, cs[1..], href);
      if s1.entries[href] != s.entries[href] {
        assert WritesEntry(hash, cs[0], href, s.entries[href]);
        if Distinct(cs) {
          OthersStay(hash, replies, s1, cs[1..], href);
        }
      } else if s'.entries[href] != s.entries[href] {
        var i :| 0 <= i < |cs[1..]| && WritesEntry(hash, cs[1..][i], href, s1.entries[href])
                 && (Distinct(cs[1..]) ==>
                       s'.entries[href] == Entry(s1.entries[href].collection,
                                                 s1.entries[href].etag + 1,
                                                 cs[1..][i].decision.value));
        assert WritesEntry(hash, cs[i + 1], href, s.entries[href]);
      }
    }
  }

  /** This entry of side A, or of side B, was in conflict as it is, and has to be written. */
  ghost predicate InConflictA(w: World, cs: seq<ItemConflict>, ds: seq<Option<string>>,
                              href: string, entry: Entry<string>)
    requires |ds| == |cs|
  {
    exists i :: 0 <= i < |cs| && cs[i].refA == Version(href, entry.etag)
                && ds[i].Some? && w.hash(ds[i].value) != w.hash(cs[i].dataA)
  }

  ghost predicate InConflictB(w: World, cs: seq<ItemConflict>, ds: seq<Option<string>>,
                              href: string, entry: Entry<string>)
    requires |ds| == |cs|
  {
    exists i :: 0 <= i < |cs| && cs[i].refB == Version(href, entry.etag)
                && ds[i].Some? && w.hash(ds[i].value) != w.hash(cs[i].dataB)
  }

  /** What somebody else edited after the plan was made is not overwritten: an entry of either side
      differs after the run only where it was still the version in conflict, with a decision that
      the side did not have yet. */
  lemma {:induction false} EditsSurvive(w: World, t: Table, cs: seq<ItemConflict>)
    ensures var t' := ResolveItems(w, t, cs).0;
            var ds := Decisions(w, t.lines, t.runs, cs);
            && t'.a.entries.Keys == t.a.entries.Keys && t'.b.entries.Keys == t.b.entries.Keys
            && (forall href | href in t.a.entries && t'.a.entries[href] != t.a.entries[href] ::
                  InConflictA(w, cs, ds, href, t.a.entries[href]))
            && (forall href | href in t.b.entries && t'.b.entries[href] != t.b.entries[href] ::
                  InConflictB(w, cs, ds, href, t.b.entries[href]))
  {
    hide *;
    var ds := Decisions(w, t.lines, t.runs, cs);
    var (t', outcome) := ResolveItems(w, t, cs);
    RunIsDecisions(w, t, cs);
    if outcome == Failed(Upload) {
      var i :| 0 <= i < |cs| && DoneUpTo(w, t, cs, ds, t', i + 1);
      DoneKeepsEdits(w, t, cs, ds, t', i + 1);
    } else {
      DoneKeepsEdits(w, t, cs, ds, t', |cs|);
    }
  }

  lemma {:induction false} KeysStay(hash: string -> string, replies: nat -> Reply,
                                    s: Store<string>, cs: seq<Change>)
    ensures ApplyChanges(hash, replies, s, cs).entries.Keys == s.entries.Keys
    decreases |cs|
  {
    if cs != [] {
      ChangeExactly(hash, replies, s, cs[0]);
      KeysStay(hash, replies, ApplyChange(hash, replies, s, cs[0]).0, cs[1..]);
      hide ApplyChange;
    }
  }

  lemma {:induction false} DoneKeepsEdits(w: World, t: Table, cs: seq<ItemConflict>,
                                          ds: seq<Option<string>>, t': Table, n: nat)
    requires |ds| == |cs| && n <= |cs| && DoneUpTo(w, t, cs, ds, t', n)
    ensures t'.a.entries.Keys == t.a.entries.Keys && t'.b.entries.Keys == t.b.entries.Keys
    ensures forall href | href in t.a.entries && t'.a.entries[href] != t.a.entries[href] ::
              InConflictA(w, cs, ds, href, t.a.entries[href])
    ensures forall href | href in t.b.entries && t'.b.entries[href] != t.b.entries[href] ::
              InConflictB(w, cs, ds, href, t.b.entries[href])
  {
    hide ApplyChanges;
    var as_, bs := SideA(cs, ds)[..n], SideB(cs, ds)[..n];
    KeysStay(w.hash, w.repliesA, t.a, as_);
    KeysStay(w.hash, w.repliesB, t.b, bs);
    forall href | href in t.a.entries && t'.a.entries[href] != t.a.entries[href]
      ensures InConflictA(w, cs, ds, href, t.a.entries[href])
    {
      ChangedAsDecided(w.hash, w.repliesA, t.a, as_, href);
      var i :| 0 <= i < |as_| && WritesEntry(w.hash, as_[i], href, t.a.entries[href]);
      assert as_[i] == Change(cs[i].refA, cs[i].dataA, ds[i]);
    }
    forall href | href in t.b.entries && t'.b.entries[href] != t.b.entries[href]
      ensures InConflictB(w, cs, ds, href, t.b.entries[href])
    {
      ChangedAsDecided(w.hash, w.repliesB, t.b, bs, href);
      var i :| 0 <= i < |bs| && WritesEntry(w.hash, bs[i], href, t.b.entries[href]);
      assert bs[i] == Change(cs[i].refB, cs[i].dataB, ds[i]);
    }
  }

  // ---- Read-only sides ------------------------------------------------------------------------

  /** Side A does not hold what is decided for the `i`-th conflict. */
  predicate NeedsA(w: World, cs: seq<ItemConflict>, ds: seq<Option<string>>, i: nat)
    requires |ds| == |cs| && i < |cs|
  {
    ds[i].Some? && w.hash(ds[i].value) != w.hash(cs[i].dataA)
  }

  predicate NeedsB(w: World, cs: seq<ItemConflict>, ds: seq<Option<string>>, i: nat)
    requires |ds| == |cs| && i < |cs|
  {
    ds[i].Some? && w.hash(ds[i].value) != w.hash(cs[i].dataB)
  }

  /** A read-only side makes the run fail exactly when some decision differs from what it holds, and is
      never changed, if the other side takes its updates. */
  lemma {:induction false} ReadOnlyAFailsExactly(w: World, t: Table, cs: seq<ItemConflict>)
    requires BothCurrent(t, cs, Decisions(w, t.lines, t.runs, cs))
    requires forall n: nat :: w.repliesA(n).Refuse?
    requires forall n: nat :: w.repliesB(n).Accept?
    ensures ResolveItems(w, t, cs).1 == Failed(Upload) <==>
            exists i :: 0 <= i < |cs| &&
              NeedsA(w, cs, Decisions(w, t.lines, t.runs, cs), i)
    ensures ResolveItems(w, t, cs).0.a.entries == t.a.entries
  {
    hide *;
    var ds := Decisions(w, t.lines, t.runs, cs);
    var (t', outcome) := ResolveItems(w, t, cs);
    RunFailsExactly(w, t, cs);
    RunIsDecisions(w, t, cs);
    assert SomeNotAccepted(w, t, cs, ds) <==>
           exists i :: 0 <= i < |cs| && UploadNotAccepted(w, t, cs, ds, i) by {
      SomeMeans(w, t, cs, ds);
    }
    forall i | 0 <= i < |cs|
      ensures UploadNotAccepted(w, t, cs, ds, i) <==> NeedsA(w, cs, ds, i)
    {
      OnlyARefuses(w, t, cs, ds, i);
    }
    if outcome == Failed(Upload) {
      var i :| 0 <= i < |cs| && DoneUpTo(w, t, cs, ds, t', i + 1);
      RefusedA(w, t, cs, ds, t', i + 1);
    } else {
      RefusedA(w, t, cs, ds, t', |cs|);
    }
  }

  lemma {:induction false} OnlyARefuses(w: World, t: Table, cs: seq<ItemConflict>,
                                          ds: seq<Option<string>>, i: nat)
    requires |ds| == |cs| && i < |cs| && BothCurrent(t, cs, ds)
    requires forall n: nat :: w.repliesA(n).Refuse?
    requires forall n: nat :: w.repliesB(n).Accept?
    ensures UploadNotAccepted(w, t, cs, ds, i) <==> NeedsA(w, cs, ds, i)
  {
    StaleFromTheStart(w.hash, w.repliesA, t.a, SideA(cs, ds), i);
    StaleFromTheStart(w.hash, w.repliesB, t.b, SideB(cs, ds), i);
    hide Written, ApplyChanges;
  }

  lemma {:induction false} RefusedA(w: World, t: Table, cs: seq<ItemConflict>,
                                     ds: seq<Option<string>>, t': Table, n: nat)
    requires |ds| == |cs| && n <= |cs| && DoneUpTo(w, t, cs, ds, t', n)
    requires forall m: nat :: w.repliesA(m).Refuse?
    ensures t'.a.entries == t.a.entries
  {
    RefusedChangesNothing(w.hash, w.repliesA, t.a, SideA(cs, ds)[..n]);
  }

  /** The same for side B. */
  lemma {:induction false} ReadOnlyBFailsExactly(w: World, t: Table, cs: seq<ItemConflict>)
    requires BothCurrent(t, cs, Decisions(w, t.lines, t.runs, cs))
    requires forall n: nat :: w.repliesB(n).Refuse?
    requires forall n: nat :: w.repliesA(n).Accept?
    ensures ResolveItems(w, t, cs).1 == Failed(Upload) <==>
            exists i :: 0 <= i < |cs| &&
              NeedsB(w, cs, Decisions(w, t.lines, t.runs, cs), i)
    ensures ResolveItems(w, t, cs).0.b.entries == t.b.entries
  {
    hide *;
    var ds := Decisions(w, t.lines, t.runs, cs);
    var (t', outcome) := ResolveItems(w, t, cs);
    RunFailsExactly(w, t, cs);
    RunIsDecisions(w, t, cs);
    assert SomeNotAccepted(w, t, cs, ds) <==>
           exists i :: 0 <= i < |cs| && UploadNotAccepted(w, t, cs, ds, i) by {
      SomeMeans(w, t, cs, ds);
    }
    forall i | 0 <= i < |cs|
      ensures UploadNotAccepted(w, t, cs, ds, i) <==> NeedsB(w, cs, ds, i)
    {
      OnlyBRefuses(w, t, cs, ds, i);
    }
    if outcome == Failed(Upload) {
      var i :| 0 <= i < |cs| && DoneUpTo(w, t, cs, ds, t', i + 1);
      RefusedB(w, t, cs, ds, t', i + 1);
    } else {
      RefusedB(w, t, cs, ds, t', |cs|);
    }
  }

  lemma {:induction false} OnlyBRefuses(w: World, t: Table, cs: seq<ItemConflict>,
                                          ds: seq<Option<string>>, i: nat)
    requires |ds| == |cs| && i < |cs| && BothCurrent(t, cs, ds)
    requires forall n: nat :: w.repliesB(n).Refuse?
    requires forall n: nat :: w.repliesA(n).Accept?
    ensures UploadNotAccepted(w, t, cs, ds, i) <==> NeedsB(w, cs, ds, i)
  {
    StaleFromTheStart(w.hash, w.repliesA, t.a, SideA(cs, ds), i);
    StaleFromTheStart(w.hash, w.repliesB, t.b, SideB(cs, ds), i);
    hide Written, ApplyChanges;
  }

  lemma {:induction false} RefusedB(w: World, t: Table, cs: seq<ItemConflict>,
                                     ds: seq<Option<string>>, t': Table, n: nat)
    requires |ds| == |cs| && n <= |cs| && DoneUpTo(w, t, cs, ds, t', n)
    requires forall m: nat :: w.repliesB(m).Refuse?
    ensures t'.b.entries == t.b.entries
  {
    RefusedChangesNothing(w.hash, w.repliesB, t.b, SideB(cs, ds)[..n]);
  }

  lemma {:induction false} RefusedChangesNothing(hash: string -> string, replies: nat -> Reply,
                                                 s: Store<string>, cs: seq<Change>)
    requires forall n: nat :: replies(n).Refuse?
    ensures ApplyChanges(hash, replies, s, cs).entries == s.entries
    decreases |cs|
  {
    if cs != [] {
      RefusedChangesNothing(hash, replies, ApplyChange(hash, replies, s, cs[0]).0, cs[1..]);
    }
  }

  // ---- Convergence ----------------------------------------------------------------------------

  /** Resolution converges. Without concurrent edits, and when each side takes its updates or needs
      none, no upload fails, and: every resolved conflict ends with equal hashes on both sides, the
      decided text being on every side that had other contents; a side that already had contents of
      the decided hash is not written, so one that takes no updates does no harm; unresolved
      conflicts and all other items are untouched. */
  lemma {:induction false} ResolutionConverges(w: World, t: Table, cs: seq<ItemConflict>)
    requires var ds := Decisions(w, t.lines, t.runs, cs);
             BothCurrent(t, cs, ds) && BothWilling(w, cs, ds)
    ensures var ds := Decisions(w, t.lines, t.runs, cs);
            var (t', outcome) := ResolveItems(w, t, cs);
            && outcome != Failed(Upload)
            && t'.a.entries.Keys == t.a.entries.Keys && t'.b.entries.Keys == t.b.entries.Keys
            && t'.a.updates == t.a.updates + Written(w.hash, SideA(cs, ds))
            && t'.b.updates == t.b.updates + Written(w.hash, SideB(cs, ds))
            && (forall i | 0 <= i < |cs| ::
                  var (a, b) := (t'.a.entries[cs[i].refA.href], t'.b.entries[cs[i].refB.href]);
                  if ds[i].None? then
                    && a == t.a.entries[cs[i].refA.href]
                    && b == t.b.entries[cs[i].refB.href]
                  else
                    && w.hash(a.item) == w.hash(ds[i].value) == w.hash(b.item)
                    && (w.hash(cs[i].dataA) != w.hash(ds[i].value) ==> a.item == ds[i].value)
                    && (w.hash(cs[i].dataB) != w.hash(ds[i].value) ==> b.item == ds[i].value))
            && (forall href | href in t.a.entries && !Affects(SideA(cs, ds), href) ::
                  t'.a.entries[href] == t.a.entries[href])
            && (forall href | href in t.b.entries && !Affects(SideB(cs, ds), href) ::
                  t'.b.entries[href] == t.b.entries[href])
  {
    var ds := Decisions(w, t.lines, t.runs, cs);
    var as_, bs := SideA(cs, ds), SideB(cs, ds);
    RunIsDecisions(w, t, cs);
    assert as_[..|cs|] == as_ && bs[..|cs|] == bs;
    forall i | 0 <= i < |cs| ensures !UploadFails(w, t, cs, ds, i) {
      WillingNeverFails(w.hash, w.repliesA, t.a, as_, i);
      WillingNeverFails(w.hash, w.repliesB, t.b, bs, i);
    }
    SideResult(w.hash, w.repliesA, t.a, as_);
    SideResult(w.hash, w.repliesB, t.b, bs);
    var t' := ResolveItems(w, t, cs).0;
    hide ResolveItems, Decisions, ApplyChanges, Willing;
    forall i | 0 <= i < |cs|
      ensures w.hash(t'.a.entries[cs[i].refA.href].item) ==
              if ds[i].Some? then w.hash(ds[i].value) else w.hash(cs[i].dataA)
      ensures w.hash(t'.b.entries[cs[i].refB.href].item) ==
              if ds[i].Some? then w.hash(ds[i].value) else w.hash(cs[i].dataB)
    {
      assert as_[i] == Change(cs[i].refA, cs[i].dataA, ds[i]);
      assert bs[i] == Change(cs[i].refB, cs[i].dataB, ds[i]);
    }
    forall href | href in t.a.entries && !Affects(as_, href)
      ensures t'.a.entries[href] == t.a.entries[href]
    {
      OthersStay(w.hash, w.repliesA, t.a, as_, href);
    }
    forall href | href in t.b.entries && !Affects(bs, href)
      ensures t'.b.entries[href] == t.b.entries[href]
    {
      OthersStay(w.hash, w.repliesB, t.b, bs, href);
    }
  }
}
