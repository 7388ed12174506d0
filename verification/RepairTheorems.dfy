/** What a repair does to the UIDs of a collection. */
module RepairTheorems {
  import opened Wrappers
  import opened Vstorage
  import opened Repair
  import opened Text

  // ---- UIDs stay unique -----------------------------------------------------------------------

  /** The entry changed, and what changed is that an item without UID got one: `u`. */
  ghost predicate Given<I(!new)>(w: World<I>, before: Entry<I>, after: Entry<I>, u: string) {
    && w.ops.uid(before.item) == None
    && w.ops.uid(after.item) == Some(u)
    && after.item == w.ops.withUid(before.item, u)
    && after.collection == before.collection
  }

  /** `fs` lists, without repetition, items of the collection that are still as in `e0` and `e`. */
  ghost predicate Pending<I(!new)>(e0: map<string, Entry<I>>, e: map<string, Entry<I>>,
                                   collection: string, fs: seq<Fetched<I>>)
  {
    && (forall i | 0 <= i < |fs| ::
          && fs[i].href in e0 && fs[i].href in e
          && e0[fs[i].href] == e[fs[i].href] == Entry(collection, fs[i].etag, fs[i].item))
    && (forall i, j | 0 <= i < j < |fs| :: fs[i].href != fs[j].href)
  }

  /** From `e0` to `e`, some items of the collection that had no UID got one that is among `uids`
      but was not in the collection before, no two of them the same. Nothing else changed. */
  ghost predicate FreshUidsOnly<I(!new)>(w: World<I>, e0: map<string, Entry<I>>,
                                         e: map<string, Entry<I>>, collection: string,
                                         old_: set<string>, uids: set<string>)
  {
    && e.Keys == e0.Keys
    && old_ <= uids
    && (forall href | href in e0 && e[href] != e0[href] ::
          && e0[href].collection == collection
          && w.ops.uid(e[href].item).Some?
          && Given(w, e0[href], e[href], w.ops.uid(e[href].item).value)
          && w.ops.uid(e[href].item).value in uids - old_)
    && (forall h1, h2 | h1 in e0 && h2 in e0 && h1 != h2 && e[h1] != e0[h1] && e[h2] != e0[h2] ::
          w.ops.uid(e[h1].item) != w.ops.uid(e[h2].item))
  }

  lemma {:induction false} ItemKeepsUidsFresh<I(!new)>(w: World<I>, e0: map<string, Entry<I>>,
                                                       k: Work<I>, collection: string,
                                                       old_: set<string>, fs: seq<Fetched<I>>)
    requires Lawful(w.ops) && fs != []
    requires FreshUidsOnly(w, e0, k.books.store.entries, collection, old_, k.uids)
    requires Pending(e0, k.books.store.entries, collection, fs)
    ensures var k' := RepairItem(w, k, fs[0]);
            FreshUidsOnly(w, e0, k'.books.store.entries, collection, old_, k'.uids)
  {
    hide Dotted;
    var e, e' := k.books.store.entries, RepairItem(w, k, fs[0]).books.store.entries;
    assert forall other | other in e && other != fs[0].href :: e'[other] == e[other];
  }

  lemma {:induction false} ItemsKeepUidsFresh<I(!new)>(w: World<I>, e0: map<string, Entry<I>>,
                                                       k: Work<I>, collection: string,
                                                       old_: set<string>, fs: seq<Fetched<I>>)
    requires Lawful(w.ops)
    requires FreshUidsOnly(w, e0, k.books.store.entries, collection, old_, k.uids)
    requires Pending(e0, k.books.store.entries, collection, fs)
    ensures var k' := RepairItems(w, k, fs);
            FreshUidsOnly(w, e0, k'.books.store.entries, collection, old_, k'.uids)
    decreases |fs|
  {
    if fs != [] {
      ItemKeepsUidsFresh(w, e0, k, collection, old_, fs);
      PendingRest(w, e0, k, collection, fs);
      hide FreshUidsOnly, Pending, RepairItem;
      ItemsKeepUidsFresh(w, e0, RepairItem(w, k, fs[0]), collection, old_, fs[1..]);
    }
  }

  /** The hrefs of the items of a collection whose UID is `u`. */
  function Holders<I(!new)>(ops: ItemOps<I>, e: map<string, Entry<I>>, collection: string, u: string)
    : set<string>
  {
    set href | href in e && e[href].collection == collection && ops.uid(e[href].item) == Some(u)
  }

  /** From `e` to `e'` no duplicate was made: in every collection, a UID that was there is on exactly
      the items that had it, and any other is on at most one. All that changed is that items without
      UID got one. */
  ghost predicate UidsStayUnique<I(!new)>(w: World<I>, e: map<string, Entry<I>>,
                                          e': map<string, Entry<I>>)
  {
    && e'.Keys == e.Keys
    && (forall href | href in e :: e'[href] == e[href] || exists u :: Given(w, e[href], e'[href], u))
    && (forall collection, u :: UniqueIn(w.ops, e, e', collection, u))
  }

  ghost predicate UniqueIn<I(!new)>(ops: ItemOps<I>, e: map<string, Entry<I>>,
                                    e': map<string, Entry<I>>, collection: string, u: string)
  {
    if Holders(ops, e, collection, u) != {} then
      Holders(ops, e', collection, u) == Holders(ops, e, collection, u)
    else forall h1, h2 | h1 in Holders(ops, e', collection, u) &&
                         h2 in Holders(ops, e', collection, u) :: h1 == h2
  }

  lemma {:induction false} FreshIsUnique<I(!new)>(w: World<I>, e: map<string, Entry<I>>,
                                                  e': map<string, Entry<I>>, collection: string,
                                                  old_: set<string>, uids: set<string>)
    requires FreshUidsOnly(w, e, e', collection, old_, uids)
    requires forall u :: Holders(w.ops, e, collection, u) != {} <==> u in old_
    ensures UidsStayUnique(w, e, e')
  {
    forall c, u ensures UniqueIn(w.ops, e, e', c, u) {
      if c == collection && u !in old_ {
        assert Holders(w.ops, e, collection, u) == {};
        assert forall href | href in Holders(w.ops, e', collection, u) :: e'[href] != e[href] by {
          assert forall href | href in e && w.ops.uid(e[href].item) == Some(u) ::
              e[href].collection == collection ==> href in Holders(w.ops, e, collection, u);
        }
      } else {
        assert forall href | href in e && e'[href] != e[href] ::
            href !in Holders(w.ops, e', c, u) && href !in Holders(w.ops, e, c, u);
        assert Holders(w.ops, e', c, u) == Holders(w.ops, e, c, u);
      }
    }
  }

  lemma {:induction false} UniqueTrans<I(!new)>(w: World<I>, e: map<string, Entry<I>>,
                                                e1: map<string, Entry<I>>,
                                                e2: map<string, Entry<I>>)
    requires UidsStayUnique(w, e, e1) && UidsStayUnique(w, e1, e2)
    ensures UidsStayUnique(w, e, e2)
  {
    forall c, u ensures UniqueIn(w.ops, e, e2, c, u) {
      assert UniqueIn(w.ops, e, e1, c, u) && UniqueIn(w.ops, e1, e2, c, u);
      hide Holders, Given;
    }
    hide UniqueIn;
    forall href | href in e
      ensures e2[href] == e[href] || exists u :: Given(w, e[href], e2[href], u)
    {
      if u :| Given(w, e[href], e1[href], u) {
        assert e2[href] == e1[href];
      } else {
        assert e1[href] == e[href];
      }
    }
  }

  lemma {:induction false} UniqueRefl<I(!new)>(w: World<I>, e: map<string, Entry<I>>)
    ensures UidsStayUnique(w, e, e)
  {
    forall c, u ensures UniqueIn(w.ops, e, e, c, u) {
    }
  }

  /** Repairing a collection never makes a duplicate, even when updates are refused or their replies
      are lost, and touches no other collection. */
  lemma {:induction false} CollectionStaysUnique<I(!new)>(w: World<I>, b: Books<I>,
                                                          collection: string)
    requires Faithful(w)
    ensures var e, e' := b.store.entries, RepairOne(w, b, collection).store.entries;
            && UidsStayUnique(w, e, e')
            && forall href | href in e && e[href].collection != collection :: e'[href] == e[href]
  {
    var e := b.store.entries;
    if w.fetchFails(collection) {
      UniqueRefl(w, e);
    } else {
      var fs := w.list(e, collection);
      assert IsSnapshot(fs, e, collection);
      FetchedIsPending(w, e, collection, fs);
      var old_ := UidsOf(w.ops, fs);
      ItemsKeepUidsFresh(w, e, Work(old_, b), collection, old_, fs);
      var k := RepairItems(w, Work(old_, b), fs);
      hide RepairItems;
      FreshIsUnique(w, e, k.books.store.entries, collection, old_, k.uids);
    }
  }

  /** Right after fetching a collection. */
  lemma {:induction false} FetchedIsPending<I(!new)>(w: World<I>, e: map<string, Entry<I>>,
                                                     collection: string, fs: seq<Fetched<I>>)
    requires IsSnapshot(fs, e, collection)
    ensures Pending(e, e, collection, fs)
    ensures var old_ := UidsOf(w.ops, fs);
            && FreshUidsOnly(w, e, e, collection, old_, old_)
            && forall u :: Holders(w.ops, e, collection, u) != {} <==> u in old_
  {
    forall u ensures Holders(w.ops, e, collection, u) != {} <==> u in UidsOf(w.ops, fs) {
      SnapshotUids(w.ops, e, collection, fs, u);
    }
  }

  lemma {:induction false} EachStaysUnique<I(!new)>(w: World<I>, b: Books<I>,
                                                    collections: seq<string>)
    requires Faithful(w)
    ensures UidsStayUnique(w, b.store.entries, RepairEach(w, b, collections).store.entries)
    decreases |collections|
  {
    if collections == [] {
      UniqueRefl(w, b.store.entries);
    } else {
      CollectionStaysUnique(w, b, collections[0]);
      var b1 := RepairOne(w, b, collections[0]);
      hide UidsStayUnique, RepairOne;
      EachStaysUnique(w, b1, collections[1..]);
      UniqueTrans(w, b.store.entries, b1.store.entries,
                  RepairEach(w, b1, collections[1..]).store.entries);
    }
  }

  /** Nor does repairing a whole storage, however often a collection is listed. */
  lemma {:induction false} NoDuplicateUid<I(!new)>(w: World<I>, b: Books<I>)
    requires Faithful(w)
    ensures UidsStayUnique(w, b.store.entries, RepairWhole(w, b).store.entries)
  {
    if w.discover.None? {
      UniqueRefl(w, b.store.entries);
    } else {
      EachStaysUnique(w, b, w.discover.value);
    }
  }

  lemma {:induction false} SnapshotUids<I(!new)>(ops: ItemOps<I>, e: map<string, Entry<I>>,
                                                 collection: string, fs: seq<Fetched<I>>, u: string)
    requires IsSnapshot(fs, e, collection)
    ensures Holders(ops, e, collection, u) != {} <==> u in UidsOf(ops, fs)
  {
    if href :| href in Holders(ops, e, collection, u) {
      var i :| 0 <= i < |fs| && fs[i].href == href;
      assert ops.uid(fs[i].item) == Some(u);
    }
    if u in UidsOf(ops, fs) {
      var i :| 0 <= i < |fs| && ops.uid(fs[i].item).Some? && ops.uid(fs[i].item).value == u;
      assert fs[i].href in Holders(ops, e, collection, u);
    }
  }

  // ---- A fresh UID is found -------------------------------------------------------------------

  ghost predicate DotlessHashes<I(!new)>(w: World<I>, fs: seq<Fetched<I>>) {
    forall i | 0 <= i < |fs| :: Dotless(w.ops.hash(fs[i].item))
  }

  /** `h` was a UID to begin with, or is the hash of an item without UID before the `i`-th. */
  ghost predicate HashTaken<I(!new)>(w: World<I>, old_: set<string>, fs: seq<Fetched<I>>, i: nat,
                                     h: string)
    requires i <= |fs|
  {
    h in old_ ||
    exists j :: 0 <= j < i && w.ops.uid(fs[j].item).None? && w.ops.hash(fs[j].item) == h
  }

  /** Item `i` has no UID and cannot have its hash for one: it needs a clock reading. */
  ghost predicate Clashes<I(!new)>(w: World<I>, old_: set<string>, fs: seq<Fetched<I>>, i: nat)
    requires i < |fs|
  {
    w.ops.uid(fs[i].item).None? && HashTaken(w, old_, fs, i, w.ops.hash(fs[i].item))
  }

  /** The clock reading for item `i`: one was taken for each item before it that needed one. */
  ghost function Reading<I(!new)>(w: World<I>, old_: set<string>, b: Books<I>, fs: seq<Fetched<I>>,
                                  i: nat): nat
    requires i <= |fs|
  {
    w.clock(b.readings + ClashesBefore(w, old_, fs, i))
  }

  ghost function ClashesBefore<I(!new)>(w: World<I>, old_: set<string>, fs: seq<Fetched<I>>, i: nat)
    : nat
    requires i <= |fs|
  {
    if i == 0 then 0
    else ClashesBefore(w, old_, fs, i - 1) + if Clashes(w, old_, fs, i - 1) then 1 else 0
  }

  /** `u` was tried as UID, with a clock reading, for some item before the `i`-th. */
  ghost predicate TriedBefore<I(!new)>(w: World<I>, old_: set<string>, b: Books<I>,
                                       fs: seq<Fetched<I>>, i: nat, u: string)
    requires i <= |fs|
  {
    exists j :: 0 <= j < i && Clashes(w, old_, fs, j)
                && u == Dotted(w.ops.hash(fs[j].item), Reading(w, old_, b, fs, j))
  }

  /** Where the UIDs seen before item `i` come from. */
  ghost predicate Origins<I(!new)>(w: World<I>, old_: set<string>, b: Books<I>,
                                   fs: seq<Fetched<I>>, i: nat, k: Work<I>)
    requires i <= |fs|
  {
    && k.books.readings == b.readings + ClashesBefore(w, old_, fs, i)
    && (forall h | Dotless(h) :: h in k.uids <==> HashTaken(w, old_, fs, i, h))
    && (forall u | !Dotless(u) :: u in k.uids <==> u in old_ || TriedBefore(w, old_, b, fs, i, u))
  }

  lemma {:induction false} DottedHasDot(h: string, n: nat)
    ensures !Dotless(Dotted(h, n))
  {
    assert Dotted(h, n)[|h|] == '.';
  }

  lemma {:induction false} OriginsStep<I(!new)>(w: World<I>, old_: set<string>, b: Books<I>,
                                                fs: seq<Fetched<I>>, i: nat, k: Work<I>)
    requires i < |fs| && Origins(w, old_, b, fs, i, k) && Dotless(w.ops.hash(fs[i].item))
    ensures Origins(w, old_, b, fs, i + 1, RepairItem(w, k, fs[i]))
  {
    var k', h := RepairItem(w, k, fs[i]), w.ops.hash(fs[i].item);
    DottedHasDot(h, w.clock(k.books.readings));
    hide Dotted;
    forall g | Dotless(g) ensures g in k'.uids <==> HashTaken(w, old_, fs, i + 1, g) {
      assert HashTaken(w, old_, fs, i + 1, g) <==>
             HashTaken(w, old_, fs, i, g) || (w.ops.uid(fs[i].item).None? && h == g);
    }
    forall u | !Dotless(u)
      ensures u in k'.uids <==> u in old_ || TriedBefore(w, old_, b, fs, i + 1, u)
    {
      assert TriedBefore(w, old_, b, fs, i + 1, u) <==>
             TriedBefore(w, old_, b, fs, i, u) ||
             (Clashes(w, old_, fs, i) && u == Dotted(h, Reading(w, old_, b, fs, i)));
    }
  }

  lemma {:induction false} RepairSnoc<I(!new)>(w: World<I>, k: Work<I>, fs: seq<Fetched<I>>,
                                               f: Fetched<I>)
    ensures RepairItems(w, k, fs + [f]) == RepairItem(w, RepairItems(w, k, fs), f)
    decreases |fs|
  {
    if fs != [] {
      assert (fs + [f])[1..] == fs[1..] + [f];
      RepairSnoc(w, RepairItem(w, k, fs[0]), fs[1..], f);
    }
  }

  /** What was done before item `i`. */
  function Before<I>(w: World<I>, old_: set<string>, b: Books<I>, fs: seq<Fetched<I>>, i: nat)
    : Work<I>
    requires i <= |fs|
  {
    RepairItems(w, Work(old_, b), fs[..i])
  }

  lemma {:induction false} OriginsHold<I(!new)>(w: World<I>, old_: set<string>, b: Books<I>,
                                                fs: seq<Fetched<I>>, i: nat)
    requires i <= |fs| && DotlessHashes(w, fs)
    ensures Origins(w, old_, b, fs, i, Before(w, old_, b, fs, i))
  {
    if i > 0 {
      OriginsHold(w, old_, b, fs, i - 1);
      assert fs[..i] == fs[..i - 1] + [fs[i - 1]];
      RepairSnoc(w, Work(old_, b), fs[..i - 1], fs[i - 1]);
      OriginsStep(w, old_, b, fs, i - 1, Before(w, old_, b, fs, i - 1));
    }
  }

  /** An item before the `i`-th, with the same hash, was tried with an equal reading. */
  ghost predicate ReadingRepeats<I(!new)>(w: World<I>, old_: set<string>, b: Books<I>,
                                          fs: seq<Fetched<I>>, i: nat)
    requires i < |fs|
  {
    exists j :: 0 <= j < i && Clashes(w, old_, fs, j)
                && w.ops.hash(fs[j].item) == w.ops.hash(fs[i].item)
                && Reading(w, old_, b, fs, j) == Reading(w, old_, b, fs, i)
  }

  /** When hashes have no dot, the program fails to make up a UID for an item exactly when the item's
      hash is already taken (by a UID found, or by an earlier item without UID), and joined with the
      clock reading it was a UID of the collection before, or an earlier item with the same hash was
      tried with an equal reading. This is said of the collection and the clock alone. */
  lemma {:induction false} NoUniqueUidExactly<I(!new)>(w: World<I>, old_: set<string>, b: Books<I>,
                                                       fs: seq<Fetched<I>>, i: nat)
    requires i < |fs| && w.ops.uid(fs[i].item).None? && DotlessHashes(w, fs)
    ensures var (hash, now) := (w.ops.hash(fs[i].item), Reading(w, old_, b, fs, i));
            NoUniqueUid(w, Before(w, old_, b, fs, i), fs[i]) <==>
              && HashTaken(w, old_, fs, i, hash)
              && (Dotted(hash, now) in old_ || ReadingRepeats(w, old_, b, fs, i))
  {
    OriginsHold(w, old_, b, fs, i);
    var hash, now := w.ops.hash(fs[i].item), Reading(w, old_, b, fs, i);
    DottedHasDot(hash, now);
    if TriedBefore(w, old_, b, fs, i, Dotted(hash, now)) {
      var j :| 0 <= j < i && Clashes(w, old_, fs, j) &&
               Dotted(hash, now) == Dotted(w.ops.hash(fs[j].item), Reading(w, old_, b, fs, j));
      var earlier := Reading(w, old_, b, fs, j);
      DotJoinInjective(hash, Decimal(now), w.ops.hash(fs[j].item), Decimal(earlier));
      DecimalInjective(now, earlier);
    }
    hide Dotted, Before;
  }

  ghost predicate ClockNeverRepeats<I(!new)>(w: World<I>) {
    forall m: nat, n: nat | m < n :: w.clock(m) != w.clock(n)
  }

  lemma {:induction false} MoreClashes<I(!new)>(w: World<I>, old_: set<string>,
                                                fs: seq<Fetched<I>>, j: nat, i: nat)
    requires j < i <= |fs| && Clashes(w, old_, fs, j)
    ensures ClashesBefore(w, old_, fs, j) < ClashesBefore(w, old_, fs, i)
    decreases i
  {
    if j < i - 1 {
      MoreClashes(w, old_, fs, j, i - 1);
    }
  }

  /** So when hashes have no dot, clock readings do not repeat, and no UID of the collection is a hash
      joined with a number, any number of items, identical or not, get one each: nothing is left for
      want of a unique UID. */
  lemma {:induction false} FreshUidAlwaysFound<I(!new)>(w: World<I>, b: Books<I>,
                                                        collection: string, i: nat)
    requires var fs := w.list(b.store.entries, collection);
             && i < |fs| && DotlessHashes(w, fs) && ClockNeverRepeats(w)
             && forall j, n | 0 <= j < |fs| && 0 <= n ::
                  Dotted(w.ops.hash(fs[j].item), n) !in UidsOf(w.ops, fs)
    ensures var fs := w.list(b.store.entries, collection);
            !NoUniqueUid(w, Before(w, UidsOf(w.ops, fs), b, fs, i), fs[i])
  {
    var fs := w.list(b.store.entries, collection);
    var old_ := UidsOf(w.ops, fs);
    if w.ops.uid(fs[i].item).None? {
      NoUniqueUidExactly(w, old_, b, fs, i);
      forall j | 0 <= j < i && Clashes(w, old_, fs, j)
        ensures Reading(w, old_, b, fs, j) != Reading(w, old_, b, fs, i)
      {
        MoreClashes(w, old_, fs, j, i);
      }
    }
  }

  ghost predicate Identical<I(!new)>(w: World<I>, fs: seq<Fetched<I>>) {
    forall j | 0 <= j < |fs| ::
      w.ops.uid(fs[j].item).None? && w.ops.hash(fs[j].item) == w.ops.hash(fs[0].item)
  }

  /** Of identical items alone in their collection, all but the first need a reading. */
  lemma {:induction false} IdenticalAt<I(!new)>(w: World<I>, b: Books<I>, fs: seq<Fetched<I>>,
                                                i: nat)
    requires i < |fs| && Identical(w, fs)
    ensures Clashes(w, {}, fs, i) <==> i > 0
    ensures Reading(w, {}, b, fs, i) == w.clock(b.readings + if i == 0 then 0 else i - 1)
  {
    if i > 0 {
      IdenticalAt(w, b, fs, i - 1);
      IdenticalCount(w, fs, i);
      assert w.ops.hash(fs[0].item) == w.ops.hash(fs[i].item);
    }
  }

  lemma {:induction false} IdenticalCount<I(!new)>(w: World<I>, fs: seq<Fetched<I>>, i: nat)
    requires 0 < i <= |fs| && Identical(w, fs)
    ensures ClashesBefore(w, {}, fs, i) == i - 1
  {
    if i > 1 {
      IdenticalCount(w, fs, i - 1);
      assert w.ops.hash(fs[0].item) == w.ops.hash(fs[i - 1].item);
    }
  }

  /** Reading number `first + n` of the clock equals one of the `n` before it. */
  ghost predicate ClockRepeats<I(!new)>(w: World<I>, first: nat, n: nat) {
    exists m: nat :: first <= m < first + n && w.clock(m) == w.clock(first + n)
  }

  lemma {:induction false} IdenticalRepeats<I(!new)>(w: World<I>, b: Books<I>,
                                                     fs: seq<Fetched<I>>, i: nat)
    requires 0 < i < |fs| && Identical(w, fs)
    ensures ReadingRepeats(w, {}, b, fs, i) <==> ClockRepeats(w, b.readings, i - 1)
  {
    hide Clashes, Reading;
    IdenticalAt(w, b, fs, i);
    if ReadingRepeats(w, {}, b, fs, i) {
      var j :| 0 <= j < i && Clashes(w, {}, fs, j)
               && Reading(w, {}, b, fs, j) == Reading(w, {}, b, fs, i);
      IdenticalAt(w, b, fs, j);
      assert w.clock(b.readings + (j - 1)) == w.clock(b.readings + (i - 1));
    }
    if ClockRepeats(w, b.readings, i - 1) {
      var m: nat :| b.readings <= m < b.readings + (i - 1)
                    && w.clock(m) == w.clock(b.readings + (i - 1));
      var j := m - b.readings + 1;
      IdenticalAt(w, b, fs, j);
      assert Clashes(w, {}, fs, j) && w.ops.hash(fs[j].item) == w.ops.hash(fs[0].item);
    }
  }

  /** The clock decides: of any number of items with one dotless hash and no UID, alone in their
      collection, the first gets the hash, and any other is given up on exactly when its clock
      reading repeats that of an earlier one. */
  lemma {:induction false} RepeatedReadingFails<I(!new)>(w: World<I>, b: Books<I>,
                                                         fs: seq<Fetched<I>>, i: nat)
    requires i < |fs| && Identical(w, fs) && Dotless(w.ops.hash(fs[0].item))
    ensures NoUniqueUid(w, Before(w, {}, b, fs, i), fs[i]) <==>
            i > 0 && ClockRepeats(w, b.readings, i - 1)
  {
    NoUniqueUidExactly(w, {}, b, fs, i);
    IdenticalAt(w, b, fs, i);
    hide NoUniqueUid, Before, Reading, ReadingRepeats, ClockRepeats;
    if i > 0 {
      IdenticalRepeats(w, b, fs, i);
    }
  }

  // ---- Failures are what is left --------------------------------------------------------------

  /** The items of a collection that have no UID. */
  function Unrepaired<I(!new)>(ops: ItemOps<I>, e: map<string, Entry<I>>, collection: string)
    : set<string>
  {
    set href | href in e && e[href].collection == collection && ops.uid(e[href].item) == None
  }

  /** Those among the listed items. */
  function LeftOf<I(!new)>(ops: ItemOps<I>, e: map<string, Entry<I>>, fs: seq<Fetched<I>>): set<string>
    decreases |fs|
  {
    if fs == [] then {}
    else
      (if fs[0].href in e && ops.uid(e[fs[0].href].item) == None then {fs[0].href} else {}) +
      LeftOf(ops, e, fs[1..])
  }

  predicate Listed<I>(fs: seq<Fetched<I>>, href: string) {
    exists i :: 0 <= i < |fs| && fs[i].href == href
  }

  lemma {:induction false} ListedLater<I>(fs: seq<Fetched<I>>, href: string)
    requires fs != []
    ensures Listed(fs, href) <==> fs[0].href == href || Listed(fs[1..], href)
  {
    if Listed(fs, href) && fs[0].href != href {
      var i :| 0 <= i < |fs| && fs[i].href == href;
      assert fs[1..][i - 1].href == href;
    }
    if i :| 0 <= i < |fs[1..]| && fs[1..][i].href == href {
      assert fs[i + 1].href == href;
    }
  }

  lemma {:induction false} LeftAmongListed<I(!new)>(ops: ItemOps<I>, e: map<string, Entry<I>>,
                                                    fs: seq<Fetched<I>>, href: string)
    ensures href in LeftOf(ops, e, fs) <==>
            href in e && ops.uid(e[href].item) == None && Listed(fs, href)
    decreases |fs|
  {
    if fs != [] {
      LeftAmongListed(ops, e, fs[1..], href);
      ListedLater(fs, href);
    }
  }

  /** Of the updates numbered `lo` and up, but below `hi`, how many got their reply lost. Such an update
      is done, but counted as a failure. */
  function Lost<I>(w: World<I>, lo: nat, hi: nat): nat
    requires lo <= hi
    decreases hi
  {
    if lo == hi then 0
    else Lost(w, lo, hi - 1) + if w.replies(hi - 1).LoseReply? then 1 else 0
  }

  /** The replies lost while the first store became the second. */
  function LostFrom<I>(w: World<I>, s: Store<I>, s': Store<I>): nat {
    if |s.updates| <= |s'.updates| then Lost(w, |s.updates|, |s'.updates|) else 0
  }

  lemma {:induction false} LostSplit<I(!new)>(w: World<I>, lo: nat, mid: nat, hi: nat)
    requires lo <= mid <= hi
    ensures Lost(w, lo, hi) == Lost(w, lo, mid) + Lost(w, mid, hi)
    decreases hi
  {
    if mid < hi {
      LostSplit(w, lo, mid, hi - 1);
    }
  }

  lemma {:induction false} OthersUntouched<I(!new)>(w: World<I>, k: Work<I>, fs: seq<Fetched<I>>,
                                                    href: string)
    requires forall i | 0 <= i < |fs| :: fs[i].href != href
    ensures var e, e' := k.books.store.entries, RepairItems(w, k, fs).books.store.entries;
            e'.Keys == e.Keys && (href in e ==> e'[href] == e[href])
    decreases |fs|
  {
    if fs != [] {
      assert forall i | 0 <= i < |fs[1..]| :: fs[1..][i] == fs[i + 1];
      OthersUntouched(w, RepairItem(w, k, fs[0]), fs[1..], href);
    }
  }

  /** One item: a failure is counted exactly when it is left without UID, or its reply was lost. */
  lemma {:induction false} ItemAccounting<I(!new)>(w: World<I>, k: Work<I>, f: Fetched<I>)
    requires Lawful(w.ops)
    requires f.href in k.books.store.entries
    requires k.books.store.entries[f.href].etag == f.etag
    requires k.books.store.entries[f.href].item == f.item
    ensures var k' := RepairItem(w, k, f);
            var left := w.ops.uid(k'.books.store.entries[f.href].item).None?;
            && |k.books.store.updates| <= |k'.books.store.updates|
            && k'.books.failed == k.books.failed + (if left then 1 else 0) +
                                  LostFrom(w, k.books.store, k'.books.store)
  {
    hide Dotted;
    var n := |k.books.store.updates|;
    assert Lost(w, n, n) == 0;
    assert Lost(w, n, n + 1) == if w.replies(n).LoseReply? then 1 else 0;
  }

  lemma {:induction false} ItemsAccounting<I(!new)>(w: World<I>, e0: map<string, Entry<I>>,
                                                    k: Work<I>, collection: string,
                                                    fs: seq<Fetched<I>>)
    requires Lawful(w.ops) && Pending(e0, k.books.store.entries, collection, fs)
    ensures var k' := RepairItems(w, k, fs);
            && |k.books.store.updates| <= |k'.books.store.updates|
            && k'.books.failed == k.books.failed + |LeftOf(w.ops, k'.books.store.entries, fs)| +
                                  LostFrom(w, k.books.store, k'.books.store)
    decreases |fs|
  {
    if fs != [] {
      var k1 := RepairItem(w, k, fs[0]);
      var k' := RepairItems(w, k1, fs[1..]);
      ItemAccounting(w, k, fs[0]);
      PendingRest(w, e0, k, collection, fs);
      assert fs[0].href in e0;
      assert forall i | 0 <= i < |fs[1..]| :: fs[1..][i].href == fs[i + 1].href != fs[0].href;
      hide RepairItem, Pending;
      ItemsAccounting(w, e0, k1, collection, fs[1..]);
      OthersUntouched(w, k1, fs[1..], fs[0].href);
      LeftAmongListed(w.ops, k'.books.store.entries, fs[1..], fs[0].href);
      LostSplit(w, |k.books.store.updates|, |k1.books.store.updates|, |k'.books.store.updates|);
      hide Lost;
    }
  }

  lemma {:induction false} PendingRest<I(!new)>(w: World<I>, e0: map<string, Entry<I>>, k: Work<I>,
                                                collection: string, fs: seq<Fetched<I>>)
    requires Pending(e0, k.books.store.entries, collection, fs) && fs != []
    ensures Pending(e0, RepairItem(w, k, fs[0]).books.store.entries, collection, fs[1..])
  {
    var e, e' := k.books.store.entries, RepairItem(w, k, fs[0]).books.store.entries;
    assert forall other | other in e && other != fs[0].href :: e'[other] == e[other];
    assert forall i | 0 <= i < |fs[1..]| :: fs[1..][i] == fs[i + 1];
  }

  /** How far a collection fell short: 1 if it could not be fetched, else its items without UID. */
  function Shortfall<I(!new)>(w: World<I>, e: map<string, Entry<I>>, collection: string): nat {
    if w.fetchFails(collection) then 1 else |Unrepaired(w.ops, e, collection)|
  }

  /** A collection's failures are what it falls short of, and the replies lost. */
  lemma {:induction false} CollectionAccounting<I(!new)>(w: World<I>, b: Books<I>,
                                                         collection: string)
    requires Faithful(w)
    ensures var b' := RepairOne(w, b, collection);
            && |b.store.updates| <= |b'.store.updates|
            && b'.failed == b.failed + Shortfall(w, b'.store.entries, collection) +
                            LostFrom(w, b.store, b'.store)
  {
    if !w.fetchFails(collection) {
      var e, e' := b.store.entries, RepairOne(w, b, collection).store.entries;
      var fs := w.list(e, collection);
      assert IsSnapshot(fs, e, collection);
      ItemsAccounting(w, e, Work(UidsOf(w.ops, fs), b), collection, fs);
      CollectionStaysUnique(w, b, collection);
      forall href
        ensures href in LeftOf(w.ops, e', fs) <==> href in Unrepaired(w.ops, e', collection)
      {
        LeftAmongListed(w.ops, e', fs, href);
      }
      assert Unrepaired(w.ops, e', collection) == LeftOf(w.ops, e', fs);
    }
  }

  function TotalShortfall<I(!new)>(w: World<I>, e: map<string, Entry<I>>, collections: seq<string>): nat
    decreases |collections|
  {
    if collections == [] then 0
    else Shortfall(w, e, collections[0]) + TotalShortfall(w, e, collections[1..])
  }

  /** Repairing other collections does not change how far this one fell short. */
  lemma {:induction false} ShortfallStays<I(!new)>(w: World<I>, b: Books<I>, collection: string,
                                                   others: seq<string>)
    requires Faithful(w) && collection !in others
    ensures var e, e' := b.store.entries, RepairEach(w, b, others).store.entries;
            Unrepaired(w.ops, e', collection) == Unrepaired(w.ops, e, collection)
    decreases |others|
  {
    if others != [] {
      CollectionStaysUnique(w, b, others[0]);
      var b1 := RepairOne(w, b, others[0]);
      assert Unrepaired(w.ops, b1.store.entries, collection) ==
             Unrepaired(w.ops, b.store.entries, collection);
      hide RepairOne;
      ShortfallStays(w, b1, collection, others[1..]);
    }
  }

  ghost predicate NoRepeats(names: seq<string>) {
    forall i, j | 0 <= i < j < |names| :: names[i] != names[j]
  }

  /** A storage's failures are, collection by collection, what is left in the end, one for every
      collection that could not be fetched and one for every fetched item still without UID; and one
      for every update that was done but whose reply was lost. */
  lemma {:induction false} StorageAccounting<I(!new)>(w: World<I>, b: Books<I>,
                                                      collections: seq<string>)
    requires Faithful(w) && NoRepeats(collections)
    ensures var b' := RepairEach(w, b, collections);
            && |b.store.updates| <= |b'.store.updates|
            && b'.failed == b.failed + TotalShortfall(w, b'.store.entries, collections) +
                            LostFrom(w, b.store, b'.store)
    decreases |collections|
  {
    if collections != [] {
      var b1 := RepairOne(w, b, collections[0]);
      CollectionAccounting(w, b, collections[0]);
      hide RepairOne;
      StorageAccounting(w, b1, collections[1..]);
      assert collections[0] !in collections[1..];
      ShortfallStays(w, b1, collections[0], collections[1..]);
      var b' := RepairEach(w, b1, collections[1..]);
      LostSplit(w, |b.store.updates|, |b1.store.updates|, |b'.store.updates|);
      hide Lost;
    }
  }

  lemma {:induction false} NothingShort<I(!new)>(w: World<I>, e: map<string, Entry<I>>,
                                                 collections: seq<string>)
    requires TotalShortfall(w, e, collections) == 0
    ensures forall c | c in collections :: !w.fetchFails(c) && Unrepaired(w.ops, e, c) == {}
    decreases |collections|
  {
    if collections != [] {
      NothingShort(w, e, collections[1..]);
    }
  }

  /** A repair without failures leaves every item of every discovered collection with a UID. */
  lemma {:induction false} CleanMeansRepaired<I(!new)>(w: World<I>, b: Books<I>)
    requires Faithful(w)
    requires w.discover.Some? ==> NoRepeats(w.discover.value)
    requires RepairWhole(w, b).failed == b.failed
    ensures w.discover.Some?
    ensures forall c | c in w.discover.value ::
              !w.fetchFails(c) && Unrepaired(w.ops, RepairWhole(w, b).store.entries, c) == {}
  {
    StorageAccounting(w, b, w.discover.value);
    NothingShort(w, RepairWhole(w, b).store.entries, w.discover.value);
  }

  /** Repairing collections whose items all have UIDs attempts no update and reads no clock. */
  lemma {:induction false} NothingToRepair<I(!new)>(w: World<I>, b: Books<I>,
                                                    collections: seq<string>)
    requires Faithful(w)
    requires forall c | c in collections :: Unrepaired(w.ops, b.store.entries, c) == {}
    ensures RepairEach(w, b, collections) ==
            b.(failed := b.failed + FetchFailures(w, collections))
    decreases |collections|
  {
    if collections != [] {
      var c := collections[0];
      if !w.fetchFails(c) {
        var fs := w.list(b.store.entries, c);
        assert IsSnapshot(fs, b.store.entries, c);
        forall i | 0 <= i < |fs| ensures w.ops.uid(fs[i].item).Some? {
          assert fs[i].href !in Unrepaired(w.ops, b.store.entries, c);
        }
        SkipAll(w, Work(UidsOf(w.ops, fs), b), fs);
      }
      NothingToRepair(w, RepairOne(w, b, c), collections[1..]);
    }
  }

  function FetchFailures<I(!new)>(w: World<I>, collections: seq<string>): nat {
    if collections == [] then 0
    else (if w.fetchFails(collections[0]) then 1 else 0) + FetchFailures(w, collections[1..])
  }

  lemma {:induction false} SkipAll<I(!new)>(w: World<I>, k: Work<I>, fs: seq<Fetched<I>>)
    requires forall i | 0 <= i < |fs| :: w.ops.uid(fs[i].item).Some?
    ensures RepairItems(w, k, fs) == k
    decreases |fs|
  {
    if fs != [] {
      SkipAll(w, k, fs[1..]);
    }
  }
}
