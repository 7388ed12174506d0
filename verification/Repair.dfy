/** Giving UIDs to items that have none. */
module Repair {
  import opened Wrappers
  import opened Counters
  import opened Vstorage
  import Text

  /** The world that one storage's repair runs in. `clock` gives its successive clock readings. */
  datatype World<!I> = World(
    ops: ItemOps<I>,
    discover: Option<seq<string>>,
    fetchFails: string -> bool,
    list: (map<string, Entry<I>>, string) -> seq<Fetched<I>>,
    replies: nat -> Reply,
    clock: nat -> nat)

  /** Fetching a collection lists what is in it. */
  ghost predicate Faithful<I(!new)>(w: World<I>) {
    && Lawful(w.ops)
    && forall entries, collection :: IsSnapshot(w.list(entries, collection), entries, collection)
  }

  // ---- Specification --------------------------------------------------------------------------

  /** What a storage's repair has done so far: the storage, clock readings taken, failures. */
  datatype Books<I> = Books(store: Store<I>, readings: nat, failed: nat)

  function Dotted(hash: string, now: nat): string {
    hash + "." + Text.Decimal(now)
  }

  /** The UID that the program would give to an item, when it has seen `uids`. */
  function Candidate<I>(w: World<I>, uids: set<string>, readings: nat, f: Fetched<I>): string {
    var hash := w.ops.hash(f.item);
    if hash in uids then Dotted(hash, w.clock(readings)) else hash
  }

  /** While one collection is repaired: the UIDs seen in it, and the books. */
  datatype Work<I> = Work(uids: set<string>, books: Books<I>)

  /** "Failed to produce a unique UID for item!" */
  predicate NoUniqueUid<I>(w: World<I>, k: Work<I>, f: Fetched<I>) {
    w.ops.uid(f.item).None? && Candidate(w, k.uids, k.books.readings, f) in k.uids
  }

  function RepairItem<I>(w: World<I>, k: Work<I>, f: Fetched<I>): Work<I> {
    if w.ops.uid(f.item).Some? then k
    else
      var b := k.books;
      var uid := Candidate(w, k.uids, b.readings, f);
      var readings := b.readings + if w.ops.hash(f.item) in k.uids then 1 else 0;
      if uid in k.uids then k.(books := b.(readings := readings, failed := b.failed + 1))
      else
        var (store, ok) := Update(b.store, w.replies(|b.store.updates|), f.href, f.etag,
                                  w.ops.withUid(f.item, uid));
        Work(k.uids + {uid}, Books(store, readings, b.failed + if ok then 0 else 1))
  }

  function RepairItems<I>(w: World<I>, k: Work<I>, fs: seq<Fetched<I>>): Work<I>
    decreases |fs|
  {
    if fs == [] then k else RepairItems(w, RepairItem(w, k, fs[0]), fs[1..])
  }

  function UidsOf<I>(ops: ItemOps<I>, fs: seq<Fetched<I>>): set<string> {
    set i | 0 <= i < |fs| && ops.uid(fs[i].item).Some? :: ops.uid(fs[i].item).value
  }

  function RepairOne<I>(w: World<I>, b: Books<I>, collection: string): Books<I> {
    if w.fetchFails(collection) then b.(failed := b.failed + 1)
    else
      var fs := w.list(b.store.entries, collection);
      RepairItems(w, Work(UidsOf(w.ops, fs), b), fs).books
  }

  function RepairEach<I>(w: World<I>, b: Books<I>, collections: seq<string>): Books<I>
    decreases |collections|
  {
    if collections == [] then b
    else RepairEach(w, RepairOne(w, b, collections[0]), collections[1..])
  }

  function RepairWhole<I>(w: World<I>, b: Books<I>): Books<I> {
    match w.discover
    case None => b.(failed := b.failed + 1)
    case Some(collections) => RepairEach(w, b, collections)
  }

  // ---- The program ----------------------------------------------------------------------------

  class Clock {
    const at: nat -> nat
    var readings: nat

    constructor (at: nat -> nat)
      ensures this.at == at && readings == 0
    {
      this.at := at;
      readings := 0;
    }

    method Now() returns (nanos: nat)
      modifies this
      ensures nanos == at(old(readings)) && readings == old(readings) + 1
    {
      nanos := at(readings);
      readings := readings + 1;
    }
  }

  /** The program's objects are as the books say, on a counter that was at `base` before. */
  ghost predicate Holds<I>(w: World<I>, b: Books<I>, storage: Storage<I>, clock: Clock,
                           failed: Counter, base: nat)
    reads storage, clock, failed
  {
    && storage.replies == w.replies && clock.at == w.clock
    && storage.store == b.store && clock.readings == b.readings
    && failed.Valid() && failed.value == (base + b.failed) % U32
  }

  /** The loop body: repair one fetched item, given the UIDs seen so far. */
  method RepairFetched<I>(w: World<I>, storage: Storage<I>, clock: Clock, fetched: Fetched<I>,
                          seen: set<string>, failed: Counter, ghost b: Books<I>, ghost base: nat)
    returns (allUids: set<string>)
    requires Holds(w, b, storage, clock, failed, base)
    modifies storage, clock, failed
    ensures var k := RepairItem(w, Work(seen, b), fetched);
            allUids == k.uids && Holds(w, k.books, storage, clock, failed, base)
  {
    allUids := seen;
    if w.ops.uid(fetched.item).None? {
      var uid := w.ops.hash(fetched.item);
      if uid in allUids {
        var now := clock.Now();
        uid := uid + "." + Text.Decimal(now);
      }
      if uid in allUids {
        failed.FetchAdd(1);
      } else {
        allUids := allUids + {uid};
        var withUid := w.ops.withUid(fetched.item, uid);
        var ok := storage.UpdateItem(fetched.href, fetched.etag, withUid);
        if !ok {
          failed.FetchAdd(1);
        }
      }
    }
  }

  method RepairCollection<I>(w: World<I>, storage: Storage<I>, clock: Clock, collection: string,
                             failed: Counter, ghost b: Books<I>, ghost base: nat)
    requires Holds(w, b, storage, clock, failed, base)
    modifies storage, clock, failed
    ensures Holds(w, RepairOne(w, b, collection), storage, clock, failed, base)
  {
    if w.fetchFails(collection) {
      failed.FetchAdd(1);
      return;
    }
    var allFetched := w.list(storage.store.entries, collection);
    var allUids := UidsOf(w.ops, allFetched);
    ghost var books := b;
    var i := 0;
    while i < |allFetched|
      invariant i <= |allFetched|
      invariant Holds(w, books, storage, clock, failed, base)
      invariant RepairItems(w, Work(allUids, books), allFetched[i..]).books ==
                RepairOne(w, b, collection)
    {
      ghost var next := RepairItem(w, Work(allUids, books), allFetched[i]);
      allUids := RepairFetched(w, storage, clock, allFetched[i], allUids, failed, books, base);
      books := next.books;
      i := i + 1;
    }
  }

  method RepairStorage<I>(w: World<I>, storage: Storage<I>, clock: Clock, failed: Counter,
                          ghost b: Books<I>, ghost base: nat)
    requires Holds(w, b, storage, clock, failed, base)
    modifies storage, clock, failed
    ensures Holds(w, RepairWhole(w, b), storage, clock, failed, base)
  {
    if w.discover.None? {
      failed.FetchAdd(1);
      return;
    }
    var collections := w.discover.value;
    ghost var books := b;
    var i := 0;
    while i < |collections|
      invariant i <= |collections|
      invariant Holds(w, books, storage, clock, failed, base)
      invariant RepairEach(w, books, collections[i..]) == RepairWhole(w, b)
    {
      RepairCollection(w, storage, clock, collections[i], failed, books, base);
      books := RepairOne(w, books, collections[i]);
      i := i + 1;
    }
  }
}
