/** `getFavorites` and `toggleFavorite`: the favorite product ids, kept in
    storage under `FavoritesStorageKey` as a JSON array of id strings. */
module Favorites {
  import opened Wrappers
  import opened Js
  import opened Store
  import Seqs

  /** `JSON.parse(localStorage.getItem(key)) || []`. A missing key reads as
      `JSON.parse(null)`, which is `null`; an unparseable text throws and is
      caught; every falsy value becomes the empty list. */
  function GetFavorites(items: map<string, StoredText>): (r: Json)
    ensures Truthy(r)
    ensures FavoritesStorageKey !in items ==> r == JArr([])
    ensures FavoritesStorageKey in items && items[FavoritesStorageKey].Malformed? ==> r == JArr([])
    ensures FavoritesStorageKey in items && items[FavoritesStorageKey].Serialized? ==>
              r == if Truthy(items[FavoritesStorageKey].value) then items[FavoritesStorageKey].value else JArr([])
  {
    if FavoritesStorageKey !in items then JArr([])
    else match items[FavoritesStorageKey]
      case Malformed(_) => JArr([])
      case Serialized(v) => if Truthy(v) then v else JArr([])
  }

  /** The list `toggleFavorite` writes back: the first occurrence of `id`
      spliced out, or `id` pushed at the end when it does not occur. */
  function Toggled(favorites: seq<Json>, id: string): (r: seq<Json>)
    ensures JStr(id) !in favorites ==> r == favorites + [JStr(id)]
    ensures JStr(id) in favorites ==>
              exists i :: 0 <= i < |favorites| && favorites[i] == JStr(id) && JStr(id) !in favorites[..i] &&
                          r == favorites[..i] + favorites[i + 1..]
  {
    var index := Seqs.IndexOf(favorites, JStr(id));
    if index > -1 then Seqs.RemoveAt(favorites, index) else favorites + [JStr(id)]
  }

  /** The heart button of one card; `active` is its "active" class. */
  class FavoriteButton {
    var active: bool

    constructor (active: bool)
      ensures this.active == active
    {
      this.active := active;
    }
  }

  /** `toggleFavorite(productId, button)`. When the stored favorites are an
      array, the toggled list is written back and the button's state is set
      to whether `productId` was added. When they are a truthy non-array
      (foreign data), `indexOf`, `splice` or `push` throws before anything is
      written: `ok` is false and nothing changes. */
  method ToggleFavorite(store: KeyValueStore, productId: string, button: FavoriteButton) returns (ok: bool)
    modifies store, button
    ensures var favorites := GetFavorites(old(store.items));
            ok == favorites.JArr? &&
            (ok ==> store.items == old(store.items)[FavoritesStorageKey := Serialized(JArr(Toggled(favorites.items, productId)))] &&
                    button.active == (JStr(productId) !in favorites.items)) &&
            (!ok ==> store.items == old(store.items) && button.active == old(button.active))
  {
    var favorites := GetFavorites(store.items);
    if !favorites.JArr? {
      return false;
    }
    var list := favorites.items;
    var index := Seqs.IndexOf(list, JStr(productId));
    if index > -1 {
      list := Seqs.RemoveAt(list, index);
      button.active := false;
    } else {
      list := list + [JStr(productId)];
      button.active := true;
    }
    store.SetItem(FavoritesStorageKey, Serialized(JArr(list)));
    ok := true;
  }

  /** Toggling removes one occurrence of `id` or adds one; every other value
      keeps its number of occurrences. */
  lemma ToggledMultiset(favorites: seq<Json>, id: string)
    ensures multiset(Toggled(favorites, id)) ==
            if JStr(id) in favorites then multiset(favorites) - multiset{JStr(id)}
            else multiset(favorites) + multiset{JStr(id)}
  {
    var index := Seqs.IndexOf(favorites, JStr(id));
    if index > -1 {
      Seqs.RemoveAtMultiset(favorites, index);
    }
  }

  /** Afterwards `id` is a favorite exactly when it was not one before,
      provided it occurred at most once; other ids keep their membership. */
  lemma ToggleFlipsMembership(favorites: seq<Json>, id: string)
    requires Seqs.Count(favorites, JStr(id)) <= 1
    ensures JStr(id) in Toggled(favorites, id) <==> JStr(id) !in favorites
    ensures forall x :: x != JStr(id) ==> (x in Toggled(favorites, id) <==> x in favorites)
  {
    ToggledMultiset(favorites, id);
    var after := Toggled(favorites, id);
    assert JStr(id) in after <==> multiset(after)[JStr(id)] > 0;
    assert JStr(id) in favorites <==> multiset(favorites)[JStr(id)] > 0;
    forall x | x != JStr(id)
      ensures x in after <==> x in favorites
    {
      assert x in after <==> multiset(after)[x] > 0;
      assert x in favorites <==> multiset(favorites)[x] > 0;
    }
  }

  /** With several copies of `id` (foreign data), only the first is removed
      and `id` stays a favorite. */
  lemma ToggleWithDuplicateKeepsId(favorites: seq<Json>, id: string)
    requires Seqs.Count(favorites, JStr(id)) >= 2
    ensures JStr(id) in Toggled(favorites, id)
  {
    ToggledMultiset(favorites, id);
    assert multiset(Toggled(favorites, id))[JStr(id)] > 0;
  }

  /** A duplicate-free list stays duplicate-free. */
  lemma ToggleKeepsNoDuplicates(favorites: seq<Json>, id: string)
    requires Seqs.NoDuplicates(favorites)
    ensures Seqs.NoDuplicates(Toggled(favorites, id))
  {
    var index := Seqs.IndexOf(favorites, JStr(id));
    if index > -1 {
      Seqs.RemoveAtKeepsNoDuplicates(favorites, index);
    } else {
      Seqs.AppendAbsentKeepsNoDuplicates(favorites, JStr(id));
    }
  }

  /** Toggling an absent id twice restores the exact list. */
  lemma ToggleTwiceRestoresAbsent(favorites: seq<Json>, id: string)
    requires JStr(id) !in favorites
    ensures Toggled(Toggled(favorites, id), id) == favorites
  {
    var once := favorites + [JStr(id)];
    Seqs.IndexOfAfterPrefix(favorites, JStr(id), []);
    assert once + [] == once;
    assert Seqs.RemoveAt(once, |favorites|) == favorites;
  }

  /** Toggling an id that occurs at most once twice restores every
      membership (the id moves to the end when it was present). */
  lemma ToggleTwiceRestoresMembership(favorites: seq<Json>, id: string)
    requires Seqs.Count(favorites, JStr(id)) <= 1
    ensures multiset(Toggled(Toggled(favorites, id), id)) == multiset(favorites)
  {
    var once := Toggled(favorites, id);
    ToggledMultiset(favorites, id);
    ToggledMultiset(once, id);
    if JStr(id) in favorites {
      assert multiset(once)[JStr(id)] == 0;
      assert JStr(id) !in once;
    } else {
      assert JStr(id) in once;
    }
  }

  /** After a toggle, when `id` occurred at most once, the button is active
      exactly when `id` is in the list written back. */
  lemma ButtonMatchesList(favorites: seq<Json>, id: string)
    requires Seqs.Count(favorites, JStr(id)) <= 1
    ensures (JStr(id) !in favorites) == (JStr(id) in Toggled(favorites, id))
  {
    ToggleFlipsMembership(favorites, id);
  }

  /** A duplicate-free list holds each value at most once. */
  lemma {:induction false} NoDuplicatesCount(s: seq<Json>, x: Json)
    requires Seqs.NoDuplicates(s)
    ensures Seqs.Count(s, x) <= 1
  {
    if |s| > 0 {
      assert s == [s[0]] + s[1..];
      assert multiset(s) == multiset{s[0]} + multiset(s[1..]);
      NoDuplicatesCount(s[1..], x);
      if s[0] == x {
        assert x !in s[1..] by {
          forall k | 0 <= k < |s[1..]| ensures s[1..][k] != x {
            assert s[1..][k] == s[k + 1];
          }
        }
      }
    }
  }

  /** On a duplicate-free list (what `toggleFavorite` itself writes), every
      toggle flips the id's membership, keeps every other membership, and
      writes a duplicate-free list back, so the next toggle flips again. */
  lemma ToggleOnDuplicateFreeList(favorites: seq<Json>, id: string)
    requires Seqs.NoDuplicates(favorites)
    ensures JStr(id) in Toggled(favorites, id) <==> JStr(id) !in favorites
    ensures forall x :: x != JStr(id) ==> (x in Toggled(favorites, id) <==> x in favorites)
    ensures Seqs.NoDuplicates(Toggled(favorites, id))
  {
    NoDuplicatesCount(favorites, JStr(id));
    ToggleFlipsMembership(favorites, id);
    ToggleKeepsNoDuplicates(favorites, id);
  }
}
