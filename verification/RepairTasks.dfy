/** `repair_storages`: one task per storage, all adding to one wrapping counter. */
module RepairTasks {
  import opened Wrappers
  import opened Counters
  import opened Vstorage
  import opened Repair
  import opened RepairTheorems

  // ---- The tasks as a transition system -------------------------------------------------------

  datatype Phase<I> =
    | Discovering
    | Between(todo: seq<string>)
    | Within(todo: seq<string>, uids: set<string>, fs: seq<Fetched<I>>)
    | Done

  /** One storage's task. The books are its own; only its failures are shared, as they happen. */
  datatype Job<I> = Job(phase: Phase<I>, books: Books<I>)

  /** One step of a task: up to, and with, its next contact with storage or counter. */
  function Advance<I>(w: World<I>, j: Job<I>): Job<I> {
    match j.phase
    case Done => j
    case Discovering =>
      (match w.discover
       case None => Job(Done, j.books.(failed := j.books.failed + 1))
       case Some(collections) => Job(Between(collections), j.books))
    case Between(todo) =>
      if todo == [] then Job(Done, j.books)
      else if w.fetchFails(todo[0]) then
        Job(Between(todo[1..]), j.books.(failed := j.books.failed + 1))
      else
        var fs := w.list(j.books.store.entries, todo[0]);
        Job(Within(todo[1..], UidsOf(w.ops, fs), fs), j.books)
    case Within(todo, uids, fs) =>
      if fs == [] then Job(Between(todo), j.books)
      else
        var k := RepairItem(w, Work(uids, j.books), fs[0]);
        Job(Within(todo, k.uids, fs[1..]), k.books)
  }

  /** All tasks, and the counter they share. */
  datatype System<I> = System(jobs: seq<Job<I>>, counter: nat)

  /** Task `t` takes a step; what it adds to its failures it adds to the counter, atomically. */
  function Step<I>(ws: seq<World<I>>, s: System<I>, t: nat): System<I>
    requires |ws| == |s.jobs| && t < |ws|
  {
    var j := Advance(ws[t], s.jobs[t]);
    AdvanceCounts(ws[t], s.jobs[t]);
    System(s.jobs[t := j], (s.counter + (j.books.failed - s.jobs[t].books.failed)) % U32)
  }

  lemma {:induction false} AdvanceCounts<I>(w: World<I>, j: Job<I>)
    ensures j.books.failed <= Advance(w, j).books.failed <= j.books.failed + 1
  {
  }

  predicate InRange(schedule: seq<nat>, n: nat) {
    forall i | 0 <= i < |schedule| :: schedule[i] < n
  }

  /** A schedule says which task moves, step after step. */
  function RunSchedule<I>(ws: seq<World<I>>, s: System<I>, schedule: seq<nat>): (r: System<I>)
    requires |ws| == |s.jobs| && InRange(schedule, |ws|)
    ensures |r.jobs| == |ws|
    decreases |schedule|
  {
    if schedule == [] then s
    else RunSchedule(ws, Step(ws, s, schedule[0]), schedule[1..])
  }

  function Fresh<I>(store: Store<I>): Job<I> {
    Job(Discovering, Books(store, 0, 0))
  }

  function StartAll<I>(stores: seq<Store<I>>): System<I> {
    System(FreshJobs(stores), 0)
  }

  function FreshJobs<I>(stores: seq<Store<I>>): (jobs: seq<Job<I>>)
    ensures |jobs| == |stores|
    ensures forall i | 0 <= i < |jobs| :: jobs[i] == Fresh(stores[i])
  {
    if stores == [] then [] else [Fresh(stores[0])] + FreshJobs(stores[1..])
  }

  /** What a task's books will be when it is done. */
  function Finish<I>(w: World<I>, j: Job<I>): Books<I> {
    match j.phase
    case Done => j.books
    case Discovering => RepairWhole(w, j.books)
    case Between(todo) => RepairEach(w, j.books, todo)
    case Within(todo, uids, fs) => RepairEach(w, RepairItems(w, Work(uids, j.books), fs).books, todo)
  }

  lemma {:induction false} AdvanceKeepsFinish<I>(w: World<I>, j: Job<I>)
    ensures Finish(w, Advance(w, j)) == Finish(w, j)
  {
  }

  function TotalFailed<I>(jobs: seq<Job<I>>): nat {
    if jobs == [] then 0 else jobs[0].books.failed + TotalFailed(jobs[1..])
  }

  lemma {:induction false} TotalUpdate<I>(jobs: seq<Job<I>>, t: nat, j: Job<I>)
    requires t < |jobs|
    ensures TotalFailed(jobs[t := j]) == TotalFailed(jobs) - jobs[t].books.failed + j.books.failed
  {
    if t == 0 {
      assert jobs[0 := j][1..] == jobs[1..];
    } else {
      assert jobs[t := j][1..] == jobs[1..][t - 1 := j];
      TotalUpdate(jobs[1..], t - 1, j);
    }
  }

  lemma {:induction false} ScheduleInvariant<I>(ws: seq<World<I>>, s: System<I>, schedule: seq<nat>)
    requires |ws| == |s.jobs| && InRange(schedule, |ws|)
    requires s.counter == TotalFailed(s.jobs) % U32
    ensures var s' := RunSchedule(ws, s, schedule);
            && s'.counter == TotalFailed(s'.jobs) % U32
            && forall t | 0 <= t < |ws| :: Finish(ws[t], s'.jobs[t]) == Finish(ws[t], s.jobs[t])
    decreases |schedule|
  {
    if schedule != [] {
      var t := schedule[0];
      var j := Advance(ws[t], s.jobs[t]);
      AdvanceCounts(ws[t], s.jobs[t]);
      AdvanceKeepsFinish(ws[t], s.jobs[t]);
      TotalUpdate(s.jobs, t, j);
      AddWraps(0, TotalFailed(s.jobs), j.books.failed - s.jobs[t].books.failed);
      hide Advance, Finish;
      ScheduleInvariant(ws, Step(ws, s, t), schedule[1..]);
    }
  }

  // ---- What comes out -------------------------------------------------------------------------

  /** The verdict: the counter read as "no failures" when it is zero. */
  predicate ReportsSuccess<I>(s: System<I>) {
    s.counter == 0
  }

  /** The failures of repairing every storage by itself. */
  function AllFailures<I>(ws: seq<World<I>>, stores: seq<Store<I>>): nat
    requires |ws| == |stores|
  {
    if ws == [] then 0
    else RepairWhole(ws[0], Books(stores[0], 0, 0)).failed + AllFailures(ws[1..], stores[1..])
  }

  lemma {:induction false} TotalIsAll<I>(ws: seq<World<I>>, stores: seq<Store<I>>,
                                         jobs: seq<Job<I>>)
    requires |ws| == |stores| == |jobs|
    requires forall t | 0 <= t < |ws| :: jobs[t].books == RepairWhole(ws[t], Books(stores[t], 0, 0))
    ensures TotalFailed(jobs) == AllFailures(ws, stores)
  {
    if ws != [] {
      TotalIsAll(ws[1..], stores[1..], jobs[1..]);
    }
  }

  lemma {:induction false} NoneFailed<I>(jobs: seq<Job<I>>)
    requires forall t | 0 <= t < |jobs| :: jobs[t].books.failed == 0
    ensures TotalFailed(jobs) == 0
  {
    if jobs != [] {
      NoneFailed(jobs[1..]);
    }
  }

  /** However the tasks interleave, once all are done every storage is what repairing it alone makes
      of it, and the counter is the sum of all failures modulo 2^32. Hence success is reported
      exactly when the number of failures is a multiple of 2^32. */
  lemma {:induction false} InterleavingIsIrrelevant<I>(ws: seq<World<I>>, stores: seq<Store<I>>,
                                                       schedule: seq<nat>)
    requires |ws| == |stores| && InRange(schedule, |ws|)
    requires forall t | 0 <= t < |ws| ::
               RunSchedule(ws, StartAll(stores), schedule).jobs[t].phase.Done?
    ensures var s := RunSchedule(ws, StartAll(stores), schedule);
            && (forall t | 0 <= t < |ws| ::
                  s.jobs[t].books == RepairWhole(ws[t], Books(stores[t], 0, 0)))
            && s.counter == AllFailures(ws, stores) % U32
            && (ReportsSuccess(s) <==> AllFailures(ws, stores) % U32 == 0)
  {
    var s0 := StartAll(stores);
    NoneFailed(s0.jobs);
    ScheduleInvariant(ws, s0, schedule);
    var s := RunSchedule(ws, s0, schedule);
    forall t | 0 <= t < |ws| ensures s.jobs[t].books == RepairWhole(ws[t], Books(stores[t], 0, 0)) {
      assert Finish(ws[t], s.jobs[t]) == Finish(ws[t], s0.jobs[t]);
    }
    TotalIsAll(ws, stores, s.jobs);
  }

  lemma {:induction false} NoFailureAnywhere<I>(ws: seq<World<I>>, stores: seq<Store<I>>, t: nat)
    requires |ws| == |stores| && t < |ws|
    ensures RepairWhole(ws[t], Books(stores[t], 0, 0)).failed <= AllFailures(ws, stores)
  {
    if t > 0 {
      NoFailureAnywhere(ws[1..], stores[1..], t - 1);
    }
  }

  ghost predicate WellBehaved<I(!new)>(w: World<I>) {
    Faithful(w) && (w.discover.Some? ==> NoRepeats(w.discover.value))
  }

  /** What is left to do in all storages: one for each that could not be discovered, one for each
      collection that could not be fetched, and one for each item without UID in the others. */
  function WhatIsLeft<I(!new)>(ws: seq<World<I>>, jobs: seq<Job<I>>): nat
    requires |ws| == |jobs|
  {
    if ws == [] then 0
    else
      (match ws[0].discover
       case None => 1
       case Some(collections) =>
         TotalShortfall(ws[0], jobs[0].books.store.entries, collections)) +
      WhatIsLeft(ws[1..], jobs[1..])
  }

  /** Updates that were done but whose reply was lost, in all storages. */
  function LostReplies<I(!new)>(ws: seq<World<I>>, stores: seq<Store<I>>, jobs: seq<Job<I>>): nat
    requires |ws| == |stores| == |jobs|
  {
    if ws == [] then 0
    else LostFrom(ws[0], stores[0], jobs[0].books.store) +
         LostReplies(ws[1..], stores[1..], jobs[1..])
  }

  lemma {:induction false} FailuresAreLeft<I(!new)>(ws: seq<World<I>>, stores: seq<Store<I>>,
                                                    jobs: seq<Job<I>>)
    requires |ws| == |stores| == |jobs|
    requires forall t | 0 <= t < |ws| :: WellBehaved(ws[t])
    requires forall t | 0 <= t < |ws| ::
               jobs[t].books == RepairWhole(ws[t], Books(stores[t], 0, 0))
    ensures AllFailures(ws, stores) == WhatIsLeft(ws, jobs) + LostReplies(ws, stores, jobs)
  {
    hide WellBehaved;
    if ws != [] {
      assert WellBehaved(ws[0]);
      LeftInStorage(ws[0], Books(stores[0], 0, 0));
      FailuresAreLeft(ws[1..], stores[1..], jobs[1..]);
      hide LostFrom;
    }
  }

  lemma {:induction false} LeftInStorage<I(!new)>(w: World<I>, b: Books<I>)
    requires WellBehaved(w)
    ensures var b' := RepairWhole(w, b);
            b'.failed == b.failed + LostFrom(w, b.store, b'.store) +
                         match w.discover
                         case None => 1
                         case Some(collections) => TotalShortfall(w, b'.store.entries, collections)
  {
    if w.discover.Some? {
      StorageAccounting(w, b, w.discover.value);
    }
  }

  /** The counter is, modulo 2^32, exactly what is left to do and the replies that were lost. */
  lemma {:induction false} CounterIsWhatIsLeft<I(!new)>(ws: seq<World<I>>, stores: seq<Store<I>>,
                                                        schedule: seq<nat>)
    requires |ws| == |stores| && InRange(schedule, |ws|)
    requires forall t | 0 <= t < |ws| :: WellBehaved(ws[t])
    requires forall t | 0 <= t < |ws| ::
               RunSchedule(ws, StartAll(stores), schedule).jobs[t].phase.Done?
    ensures var s := RunSchedule(ws, StartAll(stores), schedule);
            s.counter == (WhatIsLeft(ws, s.jobs) + LostReplies(ws, stores, s.jobs)) % U32
  {
    InterleavingIsIrrelevant(ws, stores, schedule);
    FailuresAreLeft(ws, stores, RunSchedule(ws, StartAll(stores), schedule).jobs);
  }

  // ---- UIDs stay unique all the time ----------------------------------------------------------

  /** A job between its fetch, when the entries were `e0`, and the end of its collection. */
  ghost predicate InCollection<I(!new)>(w: World<I>, e0: map<string, Entry<I>>, j: Job<I>,
                                        collection: string, old_: set<string>)
    requires j.phase.Within?
  {
    var e := j.books.store.entries;
    && FreshUidsOnly(w, e0, e, collection, old_, j.phase.uids)
    && Pending(e0, e, collection, j.phase.fs)
    && (forall u :: Holders(w.ops, e0, collection, u) != {} <==> u in old_)
  }

  /** What holds of a job of a storage that began with `start`. */
  ghost predicate JobOk<I(!new)>(w: World<I>, start: map<string, Entry<I>>, j: Job<I>) {
    if j.phase.Within? then
      exists e0, collection, old_ ::
        UidsStayUnique(w, start, e0) && InCollection(w, e0, j, collection, old_)
    else UidsStayUnique(w, start, j.books.store.entries)
  }

  lemma {:induction false} JobUnique<I(!new)>(w: World<I>, start: map<string, Entry<I>>, j: Job<I>)
    requires JobOk(w, start, j)
    ensures UidsStayUnique(w, start, j.books.store.entries)
  {
    if j.phase.Within? {
      var e0, collection, old_ :|
        UidsStayUnique(w, start, e0) && InCollection(w, e0, j, collection, old_);
      hide UidsStayUnique, FreshUidsOnly, Pending;
      FreshIsUnique(w, e0, j.books.store.entries, collection, old_, j.phase.uids);
      UniqueTrans(w, start, e0, j.books.store.entries);
    }
  }

  lemma {:induction false} AdvanceUnique<I(!new)>(w: World<I>, start: map<string, Entry<I>>,
                                                  j: Job<I>)
    requires Faithful(w) && JobOk(w, start, j)
    ensures JobOk(w, start, Advance(w, j))
  {
    hide UidsStayUnique, FreshUidsOnly, Pending, RepairItem, Holders;
    JobUnique(w, start, j);
    var e, j' := j.books.store.entries, Advance(w, j);
    match j.phase
    case Between(todo) =>
      if todo != [] && !w.fetchFails(todo[0]) {
        FetchedIsPending(w, e, todo[0], w.list(e, todo[0]));
        assert InCollection(w, e, j', todo[0], j'.phase.uids);
      }
    case Within(_, uids, fs) =>
      if fs != [] {
        var e0, collection, old_ :|
          UidsStayUnique(w, start, e0) && InCollection(w, e0, j, collection, old_);
        ItemKeepsUidsFresh(w, e0, Work(uids, j.books), collection, old_, fs);
        PendingRest(w, e0, Work(uids, j.books), collection, fs);
        assert InCollection(w, e0, j', collection, old_);
      }
    case _ =>
  }

  lemma {:induction false} JobsStayOk<I(!new)>(ws: seq<World<I>>, starts: seq<Store<I>>,
                                               s: System<I>, schedule: seq<nat>)
    requires |ws| == |s.jobs| == |starts| && InRange(schedule, |ws|)
    requires forall t | 0 <= t < |ws| ::
               Faithful(ws[t]) && JobOk(ws[t], starts[t].entries, s.jobs[t])
    ensures forall t | 0 <= t < |ws| ::
              JobOk(ws[t], starts[t].entries, RunSchedule(ws, s, schedule).jobs[t])
    decreases |schedule|
  {
    hide JobOk, Faithful, Advance;
    if schedule != [] {
      AdvanceUnique(ws[schedule[0]], starts[schedule[0]].entries, s.jobs[schedule[0]]);
      JobsStayOk(ws, starts, Step(ws, s, schedule[0]), schedule[1..]);
    }
  }

  /** At every moment of every interleaving, also when some task goes no further, no storage has more
      duplicate UIDs than it had to begin with. */
  lemma {:induction false} NoDuplicateUidEver<I(!new)>(ws: seq<World<I>>, stores: seq<Store<I>>,
                                                       schedule: seq<nat>)
    requires |ws| == |stores| && InRange(schedule, |ws|)
    requires forall t | 0 <= t < |ws| :: Faithful(ws[t])
    ensures forall t | 0 <= t < |ws| ::
              UidsStayUnique(ws[t], stores[t].entries,
                             RunSchedule(ws, StartAll(stores), schedule).jobs[t].books.store.entries)
  {
    var s := StartAll(stores);
    forall t | 0 <= t < |ws| ensures JobOk(ws[t], stores[t].entries, s.jobs[t]) {
      UniqueRefl(ws[t], stores[t].entries);
    }
    JobsStayOk(ws, stores, s, schedule);
    hide JobOk, UidsStayUnique;
    forall t | 0 <= t < |ws|
      ensures UidsStayUnique(ws[t], stores[t].entries,
                             RunSchedule(ws, s, schedule).jobs[t].books.store.entries)
    {
      JobUnique(ws[t], stores[t].entries, RunSchedule(ws, s, schedule).jobs[t]);
    }
  }

  /** Below 2^32 failures, a reported success means that every item of every discovered collection
      has a UID, and that repairing the storage again writes nothing. */
  lemma {:induction false} SuccessMeansRepaired<I(!new)>(ws: seq<World<I>>, stores: seq<Store<I>>,
                                                         schedule: seq<nat>, t: nat, w2: World<I>)
    requires |ws| == |stores| && InRange(schedule, |ws|) && t < |ws|
    requires WellBehaved(ws[t]) && WellBehaved(w2)
    requires w2.ops == ws[t].ops && (w2.discover == ws[t].discover || w2.discover.None?)
    requires forall i | 0 <= i < |ws| ::
               RunSchedule(ws, StartAll(stores), schedule).jobs[i].phase.Done?
    requires AllFailures(ws, stores) < U32
    requires ReportsSuccess(RunSchedule(ws, StartAll(stores), schedule))
    ensures var after := RunSchedule(ws, StartAll(stores), schedule).jobs[t].books;
            && ws[t].discover.Some?
            && (forall c | c in ws[t].discover.value ::
                  Unrepaired(ws[t].ops, after.store.entries, c) == {})
            && RepairWhole(w2, after).store == after.store
  {
    InterleavingIsIrrelevant(ws, stores, schedule);
    NoFailureAnywhere(ws, stores, t);
    var after := RepairWhole(ws[t], Books(stores[t], 0, 0));
    CleanMeansRepaired(ws[t], Books(stores[t], 0, 0));
    if w2.discover.Some? {
      NothingToRepair(w2, after, w2.discover.value);
    }
  }

  /** Nothing but failures, 2^32 of them, is reported as success: the count wraps around. */
  lemma {:induction false} WrapAroundReportsSuccess<I(!new)>(w: World<I>, store: Store<I>,
                                                             collections: seq<string>,
                                                             schedule: seq<nat>)
    requires w.discover == Some(collections) && |collections| == U32
    requires forall c :: w.fetchFails(c)
    requires InRange(schedule, 1)
    requires RunSchedule([w], StartAll([store]), schedule).jobs[0].phase.Done?
    ensures RepairWhole(w, Books(store, 0, 0)).failed == U32
    ensures ReportsSuccess(RunSchedule([w], StartAll([store]), schedule))
  {
    AllFetchesFail(w, Books(store, 0, 0), collections);
    InterleavingIsIrrelevant([w], [store], schedule);
    assert AllFailures([w], [store]) ==
           RepairWhole(w, Books(store, 0, 0)).failed + AllFailures<I>([], []);
  }

  lemma {:induction false} AllFetchesFail<I(!new)>(w: World<I>, b: Books<I>,
                                                   collections: seq<string>)
    requires forall c :: w.fetchFails(c)
    ensures RepairEach(w, b, collections) == b.(failed := b.failed + |collections|)
    decreases |collections|
  {
    if collections != [] {
      AllFetchesFail(w, RepairOne(w, b, collections[0]), collections[1..]);
    }
  }
}
