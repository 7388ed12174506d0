/** The interface of the vstorage library, as far as the program uses it: items are opaque, updates
    are conditional on an etag, and the backend may refuse an update or lose its reply. */
module Vstorage {
  import opened Wrappers

  /** What the library can do with an item. */
  datatype ItemOps<!I> = ItemOps(uid: I -> Option<string>, withUid: (I, string) -> I,
                                 hash: I -> string)

  /** The one law the program relies on: giving an item a UID gives it that UID. */
  ghost predicate Lawful<I(!new)>(ops: ItemOps<I>) {
    forall item, u :: ops.uid(ops.withUid(item, u)) == Some(u)
  }

  datatype Entry<I> = Entry(collection: string, etag: nat, item: I)

  datatype Fetched<I> = Fetched(href: string, etag: nat, item: I)

  /** What the backend does with an update whose precondition holds. */
  datatype Reply = Accept | Refuse | LoseReply

  /** A storage's contents by href, and the hrefs of all updates attempted so far. */
  datatype Store<I> = Store(entries: map<string, Entry<I>>, updates: seq<string>)

  /** One conditional update, and whether it was reported to have succeeded. */
  function Update<I>(s: Store<I>, reply: Reply, href: string, etag: nat, item: I): (Store<I>, bool) {
    var logged := s.(updates := s.updates + [href]);
    if href in s.entries && s.entries[href].etag == etag && !reply.Refuse? then
      (logged.(entries := s.entries[href := Entry(s.entries[href].collection, etag + 1, item)]),
       reply.Accept?)
    else (logged, false)
  }

  class Storage<I> {
    /** The backend's reply to the update attempted after `n` others. */
    const replies: nat -> Reply
    var store: Store<I>

    constructor (store: Store<I>, replies: nat -> Reply)
      ensures this.store == store && this.replies == replies
    {
      this.store := store;
      this.replies := replies;
    }

    method UpdateItem(href: string, etag: nat, item: I) returns (ok: bool)
      modifies this
      ensures (store, ok) == Update(old(store), replies(|old(store).updates|), href, etag, item)
    {
      var reply := replies(|store.updates|);
      var passes := href in store.entries && store.entries[href].etag == etag && !reply.Refuse?;
      store := store.(updates := store.updates + [href]);
      if passes {
        var entry := Entry(store.entries[href].collection, etag + 1, item);
        store := store.(entries := store.entries[href := entry]);
      }
      ok := passes && reply.Accept?;
    }
  }

  /** `fs` lists every entry of a collection once, as it is. */
  ghost predicate IsSnapshot<I>(fs: seq<Fetched<I>>, entries: map<string, Entry<I>>,
                                collection: string)
  {
    && (forall i | 0 <= i < |fs| ::
          fs[i].href in entries && entries[fs[i].href] == Entry(collection, fs[i].etag, fs[i].item))
    && (forall i, j | 0 <= i < j < |fs| :: fs[i].href != fs[j].href)
    && (forall href | href in entries && entries[href].collection == collection ::
          exists i :: 0 <= i < |fs| && fs[i].href == href)
  }
}
