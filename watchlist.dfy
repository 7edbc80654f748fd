/**
  The watchlist (src/lib/watchlist.ts): a list of match ids kept under the one
  key 'cricket-watchlist' of the browser's key-value store. The stored value is
  the list itself (JSON encoding and decoding are taken as an exact round trip);
  `None` is the absent key.
 */
module Watchlist {
  import opened Types
  import opened Seqs

  /** What getWatchlist reads from a stored value: the absent key reads as []. */
  function Contents(item: Option<seq<string>>): (ws: seq<string>)
    ensures item.None? ==> ws == []
    ensures item.Some? ==> ws == item.value
  {
    item.GetOr([])
  }

  /** No id occurs twice. */
  predicate NoDuplicates(ws: seq<string>) {
    forall i, j | 0 <= i < j < |ws| :: ws[i] != ws[j]
  }

  /** The list addToWatchlist leaves: unchanged when `id` is present, else `id` appended. */
  function Added(ws: seq<string>, id: string): (r: seq<string>)
    ensures id in r
    ensures forall x :: x in r <==> x in ws || x == id
    ensures |ws| <= |r| <= |ws| + 1 && r[..|ws|] == ws
    ensures NoDuplicates(ws) ==> NoDuplicates(r)
  {
    if id in ws then ws else ws + [id]
  }

  /** The list removeFromWatchlist leaves: every copy of `id` dropped, the rest in order. */
  function Removed(ws: seq<string>, id: string): (r: seq<string>)
    ensures id !in r
    ensures forall x | x != id :: x in r <==> x in ws
    ensures IsSubseq(r, ws)
    ensures forall x | x != id :: multiset(r)[x] == multiset(ws)[x]
  {
    var p := (x: string) => x != id;
    FilterIsSubseq(ws, p);
    assert forall x | x != id :: multiset(Filter(ws, p))[x] == multiset(ws)[x] by {
      forall x | x != id { FilterCount(ws, p, x); }
    }
    Filter(ws, p)
  }

  /** Adding an id that is already there changes nothing; adding twice is adding once. */
  lemma AddedIdempotent(ws: seq<string>, id: string)
    ensures Added(Added(ws, id), id) == Added(ws, id)
    ensures id in ws ==> Added(ws, id) == ws
  {
  }

  /** Removing an id that is not there leaves the list as it was. */
  lemma {:induction false} RemovedAbsent(ws: seq<string>, id: string)
    requires id !in ws
    ensures Removed(ws, id) == ws
  {
    FilterKeepsAll(ws, (x: string) => x != id);
  }

  /** Removing keeps a duplicate-free list duplicate-free. */
  lemma {:induction false} RemovedNoDuplicates(ws: seq<string>, id: string)
    requires NoDuplicates(ws)
    ensures NoDuplicates(Removed(ws, id))
  {
    var r := Removed(ws, id);
    forall x | x in r ensures multiset(r)[x] <= 1 {
      assert multiset(r)[x] == multiset(ws)[x];
      NoDuplicatesCount(ws, x);
    }
    CountAtMostOneNoDuplicates(r);
  }

  lemma {:induction false} NoDuplicatesCount(ws: seq<string>, x: string)
    requires NoDuplicates(ws)
    ensures multiset(ws)[x] <= 1
  {
    if ws != [] {
      assert NoDuplicates(ws[1..]);
      NoDuplicatesCount(ws[1..], x);
      assert ws == [ws[0]] + ws[1..];
      if ws[0] == x {
        assert x !in ws[1..];
      }
    }
  }

  lemma {:induction false} CountAtMostOneNoDuplicates(ws: seq<string>)
    requires forall x | x in ws :: multiset(ws)[x] <= 1
    ensures NoDuplicates(ws)
  {
    forall i, j | 0 <= i < j < |ws| ensures ws[i] != ws[j] {
      var x := ws[i];
      assert ws == ws[..j] + [ws[j]] + ws[j + 1..];
      assert multiset(ws)[x] == multiset(ws[..j])[x] + multiset([ws[j]])[x] + multiset(ws[j + 1..])[x];
      assert ws[..j][i] == x;
      assert multiset(ws[..j])[x] >= 1;
      assert multiset([ws[j]])[x] == 0;
    }
  }

  /** Adding a new id and then removing it gives back the list exactly. */
  lemma {:induction false} AddThenRemove(ws: seq<string>, id: string)
    requires id !in ws
    ensures Removed(Added(ws, id), id) == ws
  {
    var p := (x: string) => x != id;
    FilterAppend(ws, [id], p);
    RemovedAbsent(ws, id);
    assert [id][1..] == [];
  }

  /** Removing an id and adding it back moves it to the end. */
  lemma RemoveThenAdd(ws: seq<string>, id: string)
    ensures Added(Removed(ws, id), id) == Removed(ws, id) + [id]
  {
  }

  /** The store object; its one field is the value under the watchlist key. */
  class WatchlistStore {
    var item: Option<seq<string>>

    constructor (initial: Option<seq<string>>)
      ensures item == initial
    {
      item := initial;
    }

    /** The list as getWatchlist reads it. */
    function Ids(): seq<string>
      reads this
    {
      Contents(item)
    }

    /** getWatchlist: reads the stored list; an absent key reads as []. */
    method GetWatchlist() returns (ids: seq<string>)
      ensures ids == Ids()
      ensures item.None? ==> ids == []
    {
      ids := match item case Some(ws) => ws case None => [];
    }

    /** addToWatchlist: appends a new id and writes; writes nothing when the id is present. */
    method AddToWatchlist(matchId: string)
      modifies this
      ensures Ids() == Added(old(Ids()), matchId)
      ensures matchId in old(Ids()) ==> item == old(item)
      ensures matchId !in old(Ids()) ==> item == Some(old(Ids()) + [matchId])
    {
      var watchlist := GetWatchlist();
      if matchId !in watchlist {
        watchlist := watchlist + [matchId];
        item := Some(watchlist);
      }
    }

    /** removeFromWatchlist: always writes the list without `matchId`, even when nothing was dropped. */
    method RemoveFromWatchlist(matchId: string)
      modifies this
      ensures item == Some(Removed(old(Ids()), matchId))
      ensures matchId !in Ids()
    {
      var watchlist := GetWatchlist();
      var updated := Removed(watchlist, matchId);
      item := Some(updated);
    }

    /** isInWatchlist: membership in the stored list. */
    method IsInWatchlist(matchId: string) returns (b: bool)
      ensures b <==> matchId in Ids()
    {
      var watchlist := GetWatchlist();
      b := matchId in watchlist;
    }

    /** clearWatchlist: deletes the key. */
    method ClearWatchlist()
      modifies this
      ensures item == None
      ensures Ids() == []
    {
      item := None;
    }
  }

  /** Add, add again, remove, from an absent key: the key ends up holding [], not absent. */
  method AddTwiceThenRemove(store: WatchlistStore)
    modifies store
    requires store.item == None
    ensures store.item == Some([])
  {
    store.AddToWatchlist("m1");
    assert store.item == Some(["m1"]);
    var before := store.item;
    store.AddToWatchlist("m1");
    assert store.item == before;
    var present := store.IsInWatchlist("m1");
    assert present;
    store.RemoveFromWatchlist("m1");
    present := store.IsInWatchlist("m1");
    assert !present;
    assert ["m1"][1..] == [];
  }
}
