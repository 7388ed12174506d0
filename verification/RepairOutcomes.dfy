/** What repairing does to each item, exactly. */
module RepairOutcomes {
  import opened Wrappers
  import opened Vstorage
  import opened Repair
  import opened RepairTheorems
  import opened Text

  // ---- What each item is due ------------------------------------------------------------------

  /** Item `i` cannot have its hash for a UID, nor its hash joined with its clock reading: that was a
      UID of the collection, or an earlier item with the same hash was tried with an equal reading. */
  ghost predicate GivenUp<I(!new)>(w: World<I>, old_: set<string>, b: Books<I>,
                                   fs: seq<Fetched<I>>, i: nat)
    requires i < |fs|
  {
    && Clashes(w, old_, fs, i)
    && (|| w.ops.hash(fs[i].item) + "." + Decimal(Reading(w, old_, b, fs, i)) in old_
        || ReadingRepeats(w, old_, b, fs, i))
  }

  /** The UID for item `i`: its hash, unless that is taken, and else its hash joined with its reading. */
  ghost function NewUid<I(!new)>(w: World<I>, old_: set<string>, b: Books<I>, fs: seq<Fetched<I>>,
                                 i: nat): string
    requires i < |fs|
  {
    if HashTaken(w, old_, fs, i, w.ops.hash(fs[i].item)) then
      w.ops.hash(fs[i].item) + "." + Decimal(Reading(w, old_, b, fs, i))
    else w.ops.hash(fs[i].item)
  }

  ghost predicate Attempted<I(!new)>(w: World<I>, old_: set<string>, b: Books<I>,
                                     fs: seq<Fetched<I>>, i: nat)
    requires i < |fs|
  {
    w.ops.uid(fs[i].item).None? && !GivenUp(w, old_, b, fs, i)
  }

  /** The hrefs of the items before item `i` that are updated, in order. */
  ghost function Attempts<I(!new)>(w: World<I>, old_: set<string>, b: Books<I>,
                                   fs: seq<Fetched<I>>, i: nat): seq<string>
    requires i <= |fs|
  {
    if i == 0 then []
    else Attempts(w, old_, b, fs, i - 1) +
         if Attempted(w, old_, b, fs, i - 1) then [fs[i - 1].href] else []
  }

  /** The backend's reply to the update of item `i`. */
  ghost function ReplyTo<I(!new)>(w: World<I>, old_: set<string>, b: Books<I>, fs: seq<Fetched<I>>,
                                  i: nat): Reply
    requires i < |fs|
  {
    w.replies(|b.store.updates| + |Attempts(w, old_, b, fs, i)|)
  }

  /** What becomes of item `i`: with its new UID and an etag one up, unless it has a UID, is given up on
      or its update is refused; then it stays as it is. */
  ghost function Outcome<I(!new)>(w: World<I>, old_: set<string>, b: Books<I>, collection: string,
                                  fs: seq<Fetched<I>>, i: nat): Entry<I>
    requires i < |fs|
  {
    if Attempted(w, old_, b, fs, i) && !ReplyTo(w, old_, b, fs, i).Refuse? then
      Entry(collection, fs[i].etag + 1, w.ops.withUid(fs[i].item, NewUid(w, old_, b, fs, i)))
    else Entry(collection, fs[i].etag, fs[i].item)
  }

  /** A failure for each item given up on, and for each update not accepted. */
  ghost function Failures<I(!new)>(w: World<I>, old_: set<string>, b: Books<I>,
                                   fs: seq<Fetched<I>>, i: nat): nat
    requires i <= |fs|
  {
    if i == 0 then 0
    else Failures(w, old_, b, fs, i - 1) +
         if GivenUp(w, old_, b, fs, i - 1) then 1
         else if Attempted(w, old_, b, fs, i - 1) && !ReplyTo(w, old_, b, fs, i - 1).Accept? then 1
         else 0
  }

  // ---- It gets it -----------------------------------------------------------------------------

  /** How things stand before item `i`, when the storage was `e` at first. */
  ghost predicate DoneBefore<I(!new)>(w: World<I>, old_: set<string>, b: Books<I>,
                                      collection: string, fs: seq<Fetched<I>>, i: nat,
                                      b': Books<I>)
    requires i <= |fs|
  {
    && b'.store.updates == b.store.updates + Attempts(w, old_, b, fs, i)
    && b'.failed == b.failed + Failures(w, old_, b, fs, i)
    && b'.readings == b.readings + ClashesBefore(w, old_, fs, i)
    && b'.store.entries.Keys == b.store.entries.Keys
    && (forall j | 0 <= j < |fs| ::
          && fs[j].href in b'.store.entries
          && b'.store.entries[fs[j].href] ==
             if j < i then Outcome(w, old_, b, collection, fs, j)
             else Entry(collection, fs[j].etag, fs[j].item))
    && (forall href | href in b.store.entries && !Listed(fs, href) ::
          b'.store.entries[href] == b.store.entries[href])
  }

  /** What the program decides about item `i` is what is due. */
  lemma {:induction false} DecidedRightly<I(!new)>(w: World<I>, old_: set<string>, b: Books<I>,
                                                   fs: seq<Fetched<I>>, i: nat)
    requires i < |fs| && DotlessHashes(w, fs) && w.ops.uid(fs[i].item).None?
    ensures var k := Before(w, old_, b, fs, i);
            && (NoUniqueUid(w, k, fs[i]) <==> GivenUp(w, old_, b, fs, i))
            && Candidate(w, k.uids, k.books.readings, fs[i]) == NewUid(w, old_, b, fs, i)
            && k.books.readings == b.readings + ClashesBefore(w, old_, fs, i)
            && (w.ops.hash(fs[i].item) in k.uids <==> Clashes(w, old_, fs, i))
  {
    OriginsHold(w, old_, b, fs, i);
    NoUniqueUidExactly(w, old_, b, fs, i);
    hide NoUniqueUid, Before, ReadingRepeats;
  }

  /** The books after one item, in the terms of what it is due. */
  lemma {:induction false} ItemBooks<I(!new)>(w: World<I>, old_: set<string>, b: Books<I>,
                                              collection: string, fs: seq<Fetched<I>>, i: nat)
    requires i < |fs| && DotlessHashes(w, fs)
    requires var b1 := Before(w, old_, b, fs, i).books;
             && b1.store.updates == b.store.updates + Attempts(w, old_, b, fs, i)
             && fs[i].href in b1.store.entries
             && b1.store.entries[fs[i].href] == Entry(collection, fs[i].etag, fs[i].item)
    ensures var b1 := Before(w, old_, b, fs, i).books;
            var b2 := RepairItem(w, Before(w, old_, b, fs, i), fs[i]).books;
            && b2.store.updates == b.store.updates + Attempts(w, old_, b, fs, i + 1)
            && b2.failed - b1.failed == Failures(w, old_, b, fs, i + 1) - Failures(w, old_, b, fs, i)
            && b2.readings - b1.readings == (if Clashes(w, old_, fs, i) then 1 else 0)
            && b2.store.entries ==
               b1.store.entries[fs[i].href := Outcome(w, old_, b, collection, fs, i)]
  {
    var k := Before(w, old_, b, fs, i);
    if w.ops.uid(fs[i].item).None? {
      DecidedRightly(w, old_, b, fs, i);
    }
    hide Before, NewUid, Candidate, DotlessHashes, Reading, HashTaken, ReadingRepeats;
    assert k.books.store.entries[fs[i].href := k.books.store.entries[fs[i].href]] ==
           k.books.store.entries;
  }

  lemma {:induction false} ItemStep<I(!new)>(w: World<I>, old_: set<string>, b: Books<I>,
                                             collection: string, fs: seq<Fetched<I>>, i: nat)
    requires i < |fs| && DotlessHashes(w, fs)
    requires forall j, k | 0 <= j < k < |fs| :: fs[j].href != fs[k].href
    requires DoneBefore(w, old_, b, collection, fs, i, Before(w, old_, b, fs, i).books)
    ensures DoneBefore(w, old_, b, collection, fs, i + 1,
                       RepairItem(w, Before(w, old_, b, fs, i), fs[i]).books)
  {
    hide Outcome, Clashes, Attempts, Failures, RepairItem, Before, DotlessHashes;
    ItemBooks(w, old_, b, collection, fs, i);
    ItemDone(w, old_, b, collection, fs, i, Before(w, old_, b, fs, i).books,
             RepairItem(w, Before(w, old_, b, fs, i), fs[i]).books);
  }

  lemma {:induction false} ItemDone<I(!new)>(w: World<I>, old_: set<string>, b: Books<I>,
                                             collection: string, fs: seq<Fetched<I>>, i: nat,
                                             b1: Books<I>, b2: Books<I>)
    requires i < |fs|
    requires forall j, k | 0 <= j < k < |fs| :: fs[j].href != fs[k].href
    requires DoneBefore(w, old_, b, collection, fs, i, b1)
    requires b2.store.updates == b.store.updates + Attempts(w, old_, b, fs, i + 1)
    requires b2.failed - b1.failed ==
             Failures(w, old_, b, fs, i + 1) - Failures(w, old_, b, fs, i)
    requires b2.readings - b1.readings == if Clashes(w, old_, fs, i) then 1 else 0
    requires b2.store.entries ==
             b1.store.entries[fs[i].href := Outcome(w, old_, b, collection, fs, i)]
    ensures DoneBefore(w, old_, b, collection, fs, i + 1, b2)
  {
    hide Outcome, Clashes, Attempts, Failures, Listed;
    assert Listed(fs, fs[i].href) by {
      ListedAt(fs, i);
    }
  }

  lemma {:induction false} ListedAt<I>(fs: seq<Fetched<I>>, i: nat)
    requires i < |fs|
    ensures Listed(fs, fs[i].href)
  {
  }

  lemma {:induction false} AllItems<I(!new)>(w: World<I>, old_: set<string>, b: Books<I>,
                                             collection: string, fs: seq<Fetched<I>>, i: nat)
    requires i <= |fs| && DotlessHashes(w, fs)
    requires Pending(b.store.entries, b.store.entries, collection, fs)
    ensures DoneBefore(w, old_, b, collection, fs, i, Before(w, old_, b, fs, i).books)
  {
    hide *;
    if i == 0 {
      NothingDone(w, old_, b, collection, fs);
    } else {
      AllItems(w, old_, b, collection, fs, i - 1);
      PendingHrefs(b.store.entries, collection, fs);
      ItemStep(w, old_, b, collection, fs, i - 1);
      NextItem(w, old_, b, fs, i - 1);
    }
  }

  lemma {:induction false} NothingDone<I(!new)>(w: World<I>, old_: set<string>, b: Books<I>,
                                                collection: string, fs: seq<Fetched<I>>)
    requires Pending(b.store.entries, b.store.entries, collection, fs)
    ensures DoneBefore(w, old_, b, collection, fs, 0, Before(w, old_, b, fs, 0).books)
  {
    hide Outcome;
    assert fs[..0] == [];
  }

  lemma {:induction false} PendingHrefs<I(!new)>(e: map<string, Entry<I>>, collection: string,
                                                 fs: seq<Fetched<I>>)
    requires Pending(e, e, collection, fs)
    ensures forall j, k | 0 <= j < k < |fs| :: fs[j].href != fs[k].href
  {
  }

  lemma {:induction false} NextItem<I(!new)>(w: World<I>, old_: set<string>, b: Books<I>,
                                             fs: seq<Fetched<I>>, i: nat)
    requires i < |fs|
    ensures Before(w, old_, b, fs, i + 1) == RepairItem(w, Before(w, old_, b, fs, i), fs[i])
  {
    hide RepairItem;
    assert fs[..i + 1] == fs[..i] + [fs[i]];
    RepairSnoc(w, Work(old_, b), fs[..i], fs[i]);
  }

  /** Repairing a collection does to each item exactly what it is due: an item with a UID, one that is
      given up on and one whose update is refused stay as they are, any other gets its hash for a
      UID, or, if that is taken, its hash, a dot and its clock reading. The updates attempted are
      exactly those of the items without UID that are not given up on, in order; failures and clock
      readings are counted exactly, and no other item is touched. */
  lemma {:induction false} CollectionExactly<I(!new)>(w: World<I>, b: Books<I>, collection: string)
    requires Faithful(w) && !w.fetchFails(collection)
    requires DotlessHashes(w, w.list(b.store.entries, collection))
    ensures var fs := w.list(b.store.entries, collection);
            DoneBefore(w, UidsOf(w.ops, fs), b, collection, fs, |fs|,
                       RepairOne(w, b, collection))
  {
    var fs := w.list(b.store.entries, collection);
    assert IsSnapshot(fs, b.store.entries, collection);
    FetchedIsPending(w, b.store.entries, collection, fs);
    AllItems(w, UidsOf(w.ops, fs), b, collection, fs, |fs|);
    assert fs[..|fs|] == fs;
    hide DoneBefore;
  }

  // ---- A whole storage ------------------------------------------------------------------------

  /** The storage when collection number `j` is begun. */
  function BeforeCollection<I>(w: World<I>, b: Books<I>, collections: seq<string>, j: nat): Books<I>
    requires j <= |collections|
  {
    RepairEach(w, b, collections[..j])
  }

  lemma {:induction false} EachSplit<I(!new)>(w: World<I>, b: Books<I>, p: seq<string>,
                                              q: seq<string>)
    ensures RepairEach(w, b, p + q) == RepairEach(w, RepairEach(w, b, p), q)
    decreases |p|
  {
    hide RepairOne;
    if p == [] {
      assert p + q == q;
    } else {
      assert (p + q)[0] == p[0] && (p + q)[1..] == p[1..] + q;
      EachSplit(w, RepairOne(w, b, p[0]), p[1..], q);
    }
  }

  lemma {:induction false} OthersStayPut<I(!new)>(w: World<I>, b: Books<I>,
                                                  collections: seq<string>, href: string)
    requires Faithful(w) && href in b.store.entries
    requires b.store.entries[href].collection !in collections
    ensures var e' := RepairEach(w, b, collections).store.entries;
            href in e' && e'[href] == b.store.entries[href]
    decreases |collections|
  {
    if collections != [] {
      CollectionStaysUnique(w, b, collections[0]);
      var b1 := RepairOne(w, b, collections[0]);
      hide RepairOne, Holders, Given;
      assert href in b1.store.entries && b1.store.entries[href] == b.store.entries[href];
      OthersStayPut(w, b1, collections[1..], href);
    }
  }

  /** A whole storage: collection by collection, each from the state that the ones before it left, and
      what it does to a collection stays, as long as none is listed twice. A storage that cannot be
      discovered, or a collection that cannot be fetched, counts one failure and is left alone. */
  lemma {:induction false} StorageExactly<I(!new)>(w: World<I>, b: Books<I>)
    requires Faithful(w)
    ensures w.discover.None? ==> RepairWhole(w, b) == b.(failed := b.failed + 1)
    ensures w.discover.Some? ==>
              var cs := w.discover.value;
              && BeforeCollection(w, b, cs, 0) == b
              && BeforeCollection(w, b, cs, |cs|) == RepairWhole(w, b)
              && (forall j | 0 <= j < |cs| && w.fetchFails(cs[j]) ::
                    BeforeCollection(w, b, cs, j + 1) ==
                    BeforeCollection(w, b, cs, j).(failed := BeforeCollection(w, b, cs, j).failed + 1))
              && (forall j | 0 <= j < |cs| && !w.fetchFails(cs[j]) ::
                    CollectionDone(w, BeforeCollection(w, b, cs, j), cs[j],
                                   BeforeCollection(w, b, cs, j + 1)))
              && (NoRepeats(cs) ==>
                    forall j | 0 <= j < |cs| ::
                      SameIn(BeforeCollection(w, b, cs, j + 1).store, RepairWhole(w, b).store, cs[j]))
  {
    if w.discover.Some? {
      var cs := w.discover.value;
      assert cs[..0] == [] && cs[..|cs|] == cs;
      forall j | 0 <= j < |cs|
        ensures BeforeCollection(w, b, cs, j + 1) ==
                RepairOne(w, BeforeCollection(w, b, cs, j), cs[j])
        ensures !w.fetchFails(cs[j]) ==>
                  CollectionDone(w, BeforeCollection(w, b, cs, j), cs[j],
                                 BeforeCollection(w, b, cs, j + 1))
        ensures NoRepeats(cs) ==>
                  SameIn(BeforeCollection(w, b, cs, j + 1).store, RepairWhole(w, b).store, cs[j])
      {
        var b1 := BeforeCollection(w, b, cs, j);
        NextCollection(w, b, cs, j);
        if !w.fetchFails(cs[j]) {
          DoneIfDotless(w, b1, cs[j]);
        }
        if NoRepeats(cs) {
          ThenStays(w, b, cs, j);
        }
        hide CollectionDone, SameIn, BeforeCollection, RepairOne;
      }
    }
  }

  lemma {:induction false} NextCollection<I(!new)>(w: World<I>, b: Books<I>, cs: seq<string>,
                                                   j: nat)
    requires j < |cs|
    ensures BeforeCollection(w, b, cs, j + 1) == RepairOne(w, BeforeCollection(w, b, cs, j), cs[j])
  {
    hide RepairOne;
    assert cs[..j + 1] == cs[..j] + [cs[j]];
    EachSplit(w, b, cs[..j], [cs[j]]);
    assert [cs[j]][1..] == [];
  }

  /** Every item of the collection got what it was due, if hashes have no dot. */
  ghost predicate CollectionDone<I(!new)>(w: World<I>, b: Books<I>, collection: string,
                                          b': Books<I>)
  {
    var fs := w.list(b.store.entries, collection);
    DotlessHashes(w, fs) ==> DoneBefore(w, UidsOf(w.ops, fs), b, collection, fs, |fs|, b')
  }

  lemma {:induction false} DoneIfDotless<I(!new)>(w: World<I>, b: Books<I>, collection: string)
    requires Faithful(w) && !w.fetchFails(collection)
    ensures CollectionDone(w, b, collection, RepairOne(w, b, collection))
  {
    hide DoneBefore, RepairOne;
    if DotlessHashes(w, w.list(b.store.entries, collection)) {
      CollectionExactly(w, b, collection);
    }
  }

  /** The collection's items are the same in both stores. */
  predicate SameIn<I(==)>(s: Store<I>, s': Store<I>, collection: string) {
    forall href | href in s.entries && s.entries[href].collection == collection ::
      href in s'.entries && s'.entries[href] == s.entries[href]
  }

  lemma {:induction false} ThenStays<I(!new)>(w: World<I>, b: Books<I>, cs: seq<string>, j: nat)
    requires Faithful(w) && NoRepeats(cs) && j < |cs|
    ensures SameIn(BeforeCollection(w, b, cs, j + 1).store, RepairEach(w, b, cs).store, cs[j])
  {
    var b1 := BeforeCollection(w, b, cs, j + 1);
    assert cs == cs[..j + 1] + cs[j + 1..];
    EachSplit(w, b, cs[..j + 1], cs[j + 1..]);
    assert cs[j] !in cs[j + 1..];
    hide RepairEach;
    forall href | href in b1.store.entries && b1.store.entries[href].collection == cs[j]
      ensures var e' := RepairEach(w, b, cs).store.entries;
              href in e' && e'[href] == b1.store.entries[href]
    {
      OthersStayPut(w, b1, cs[j + 1..], href);
    }
  }

  // ---- When nothing goes wrong ----------------------------------------------------------------

  /** Every update is accepted and clock readings do not repeat. */
  ghost predicate Smooth<I(!new)>(w: World<I>) {
    ClockNeverRepeats(w) && forall n: nat :: w.replies(n).Accept?
  }

  /** In this collection, hashes have no dot, and no UID is one of the hashes joined with a number. */
  ghost predicate Clear<I(!new)>(w: World<I>, e: map<string, Entry<I>>, collection: string) {
    && (forall href | href in e && e[href].collection == collection ::
          Dotless(w.ops.hash(e[href].item)))
    && (forall h1, h2, n: nat | h1 in e && h2 in e && e[h1].collection == collection
                                && e[h2].collection == collection ::
          w.ops.uid(e[h1].item) != Some(Dotted(w.ops.hash(e[h2].item), n)))
  }

  lemma {:induction false} ClearListing<I(!new)>(w: World<I>, b: Books<I>, collection: string)
    requires Faithful(w) && Clear(w, b.store.entries, collection)
    ensures var fs := w.list(b.store.entries, collection);
            && DotlessHashes(w, fs)
            && forall j, n | 0 <= j < |fs| && 0 <= n ::
                 Dotted(w.ops.hash(fs[j].item), n) !in UidsOf(w.ops, fs)
  {
    var e := b.store.entries;
    var fs := w.list(e, collection);
    assert IsSnapshot(fs, e, collection);
    hide Dotted;
    assert forall i | 0 <= i < |fs| :: e[fs[i].href].item == fs[i].item;
    forall i, j, n: nat | 0 <= i < |fs| && 0 <= j < |fs|
      ensures w.ops.uid(fs[i].item) != Some(Dotted(w.ops.hash(fs[j].item), n))
    {
      assert w.ops.uid(e[fs[i].href].item) != Some(Dotted(w.ops.hash(e[fs[j].href].item), n));
    }
  }

  lemma {:induction false} NobodyGivenUp<I(!new)>(w: World<I>, b: Books<I>, collection: string,
                                                  i: nat)
    requires Faithful(w) && Smooth(w) && Clear(w, b.store.entries, collection)
    requires i < |w.list(b.store.entries, collection)|
    ensures var fs := w.list(b.store.entries, collection);
            !GivenUp(w, UidsOf(w.ops, fs), b, fs, i)
  {
    var fs := w.list(b.store.entries, collection);
    ClearListing(w, b, collection);
    FreshUidAlwaysFound(w, b, collection, i);
    hide NoUniqueUid, Clear, IsSnapshot;
    if w.ops.uid(fs[i].item).None? {
      DecidedRightly(w, UidsOf(w.ops, fs), b, fs, i);
    }
  }

  lemma {:induction false} NoFailures<I(!new)>(w: World<I>, old_: set<string>, b: Books<I>,
                                               fs: seq<Fetched<I>>, i: nat)
    requires i <= |fs| && (forall n: nat :: w.replies(n).Accept?)
    requires forall j | 0 <= j < |fs| :: !GivenUp(w, old_, b, fs, j)
    ensures Failures(w, old_, b, fs, i) == 0
  {
    hide GivenUp, Attempted;
    if i > 0 {
      NoFailures(w, old_, b, fs, i - 1);
    }
  }

  /** Repair repairs: when nothing is in the way, every item of the collection has a UID afterwards and
      no failure is counted. */
  lemma {:induction false} EverythingRepaired<I(!new)>(w: World<I>, b: Books<I>, collection: string)
    requires Faithful(w) && Smooth(w) && Clear(w, b.store.entries, collection)
    requires !w.fetchFails(collection)
    ensures var b' := RepairOne(w, b, collection);
            && Unrepaired(w.ops, b'.store.entries, collection) == {}
            && b'.failed == b.failed
  {
    var fs := w.list(b.store.entries, collection);
    var old_ := UidsOf(w.ops, fs);
    hide GivenUp, IsSnapshot, RepairOne, Clear;
    forall j | 0 <= j < |fs| ensures !GivenUp(w, old_, b, fs, j) {
      NobodyGivenUp(w, b, collection, j);
    }
    ClearListing(w, b, collection);
    NoFailures(w, old_, b, fs, |fs|);
    CollectionExactly(w, b, collection);
    CollectionAccounting(w, b, collection);
  }

  lemma {:induction false} ClearUntouched<I(!new)>(w: World<I>, b: Books<I>, cs: seq<string>,
                                                   collection: string)
    requires Faithful(w) && Clear(w, b.store.entries, collection) && collection !in cs
    ensures Clear(w, RepairEach(w, b, cs).store.entries, collection)
    decreases |cs|
  {
    if cs != [] {
      CollectionStaysUnique(w, b, cs[0]);
      var b1 := RepairOne(w, b, cs[0]);
      hide RepairOne, Holders, UniqueIn;
      var e, e1 := b.store.entries, b1.store.entries;
      assert forall href | href in e1 && e1[href].collection == collection :: e1[href] == e[href];
      hide UidsStayUnique, Dotted;
      assert Clear(w, e1, collection);
      hide Clear;
      ClearUntouched(w, b1, cs[1..], collection);
    }
  }

  /** And so for a whole storage: when nothing is in the way, all its collections are repaired and no
      failure is counted. */
  lemma {:induction false} StorageRepaired<I(!new)>(w: World<I>, b: Books<I>)
    requires Faithful(w) && Smooth(w) && w.discover.Some? && NoRepeats(w.discover.value)
    requires forall c | c in w.discover.value ::
               !w.fetchFails(c) && Clear(w, b.store.entries, c)
    ensures RepairWhole(w, b).failed == b.failed
    ensures forall c | c in w.discover.value ::
              Unrepaired(w.ops, RepairWhole(w, b).store.entries, c) == {}
  {
    var cs := w.discover.value;
    NoneFailed(w, b, cs);
    hide Smooth, Clear, Faithful;
    CleanMeansRepaired(w, b);
  }

  lemma {:induction false} NoneFailed<I(!new)>(w: World<I>, b: Books<I>, cs: seq<string>)
    requires Faithful(w) && Smooth(w) && NoRepeats(cs)
    requires forall c | c in cs :: !w.fetchFails(c) && Clear(w, b.store.entries, c)
    ensures RepairEach(w, b, cs).failed == b.failed
    decreases |cs|
  {
    hide Smooth, Clear, RepairOne, Faithful;
    if cs != [] {
      EverythingRepaired(w, b, cs[0]);
      var b1 := RepairOne(w, b, cs[0]);
      assert [cs[0]][1..] == [] && RepairEach(w, b, [cs[0]]) == RepairEach(w, b1, []) == b1;
      forall c | c in cs[1..] ensures Clear(w, b1.store.entries, c) {
        ClearUntouched(w, b, [cs[0]], c);
      }
      NoneFailed(w, b1, cs[1..]);
    }
  }
}
