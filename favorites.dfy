/** The favourites registry: an ordered list of movie records keyed by `id`,
    loaded once from local storage and written back after every change. */
module Favorites {
  import opened Wrappers
  import opened Movies
  import opened Storage

  /** The storage key under which the list is kept. */
  const FavoritesKey := "favoriteMovies"

  /** Some entry of `list` has identifier `id` (ids compare with `===`; two
      missing ids are equal, as two `undefined` values are; a missing id
      stands for `undefined` only, never `null`). */
  ghost predicate HasId(list: seq<Movie>, id: Option<int>)
  {
    exists i :: 0 <= i < |list| && list[i].id == id
  }

  /** No two entries share an identifier. */
  ghost predicate UniqueIds(list: seq<Movie>)
  {
    forall i, j :: 0 <= i < j < |list| ==> list[i].id != list[j].id
  }

  /** The number of entries of `list` with identifier `id`. */
  ghost function CountId(list: seq<Movie>, id: Option<int>): nat
  {
    if list == [] then 0
    else CountId(list[..|list| - 1], id) + (if list[|list| - 1].id == id then 1 else 0)
  }

  /** `a` is `b` with some entries dropped, the rest kept in their order. */
  ghost predicate IsSubsequence(a: seq<Movie>, b: seq<Movie>)
    decreases |b|
  {
    if a == [] then true
    else if b == [] then false
    else (a[|a| - 1] == b[|b| - 1] && IsSubsequence(a[..|a| - 1], b[..|b| - 1]))
         || IsSubsequence(a, b[..|b| - 1])
  }

  /** `list.find(fav => fav.id === id)`: the first entry with identifier `id`. */
  function Find(list: seq<Movie>, id: Option<int>): (r: Option<Movie>)
    ensures r.Some? <==> HasId(list, id)
    ensures r.Some? ==> exists i :: 0 <= i < |list| && list[i] == r.value && r.value.id == id &&
                                    forall j :: 0 <= j < i ==> list[j].id != id
  {
    if list == [] then None
    else if list[0].id == id then Some(list[0])
    else
      var r := Find(list[1..], id);
      assert HasId(list, id) ==> HasId(list[1..], id) by {
        if HasId(list, id) {
          var i :| 0 <= i < |list| && list[i].id == id;
          assert list[1..][i - 1].id == id;
        }
      }
      assert r.Some? ==> exists i :: 0 <= i < |list| && list[i] == r.value && r.value.id == id &&
                                     forall j :: 0 <= j < i ==> list[j].id != id by {
        if r.Some? {
          var k :| 0 <= k < |list[1..]| && list[1..][k] == r.value && r.value.id == id &&
                   forall j :: 0 <= j < k ==> list[1..][j].id != id;
          assert list[k + 1] == r.value;
          assert forall j :: 0 <= j < k + 1 ==> list[j].id != id by {
            forall j | 0 <= j < k + 1 ensures list[j].id != id {
              if j > 0 { assert list[j] == list[1..][j - 1]; }
            }
          }
        }
      }
      r
  }

  /** The updater of `addFavorite`: append `movie` unless an entry with its
      identifier is already present, in which case the same list is kept. */
  function Added(list: seq<Movie>, movie: Movie): (r: seq<Movie>)
    ensures HasId(list, movie.id) ==> r == list
    ensures !HasId(list, movie.id) ==> |r| == |list| + 1 && r[..|list|] == list && r[|list|] == movie
    ensures HasId(r, movie.id)
  {
    if Find(list, movie.id).None? then list + [movie] else list
  }

  /** The updater of `removeFavorite`: `list.filter(m => m.id !== id)`. */
  function Removed(list: seq<Movie>, id: Option<int>): (r: seq<Movie>)
    ensures |r| <= |list|
    ensures forall i :: 0 <= i < |r| ==> r[i].id != id
    ensures !HasId(list, id) ==> r == list
  {
    if list == [] then []
    else
      var init := list[..|list| - 1];
      var last := list[|list| - 1];
      var ri := Removed(init, id);
      var r := ri + (if last.id != id then [last] else []);
      assert forall i :: 0 <= i < |r| ==> r[i].id != id by {
        forall i | 0 <= i < |r| ensures r[i].id != id {
          if i < |ri| { assert r[i] == ri[i]; }
        }
      }
      assert list == init + [last];
      assert !HasId(list, id) ==> !HasId(init, id) by {
        if HasId(init, id) {
          var i :| 0 <= i < |init| && init[i].id == id;
          assert list[i].id == id;
        }
      }
      r
  }

  /** Exactly the entries with another identifier survive a removal, each as
      often as before, so the list shrinks by the number of entries with the
      removed identifier. */
  lemma {:induction false} RemovedMembers(list: seq<Movie>, id: Option<int>)
    ensures forall m :: m in Removed(list, id) <==> m in list && m.id != id
    ensures |Removed(list, id)| == |list| - CountId(list, id)
  {
    if list != [] {
      var init := list[..|list| - 1];
      var last := list[|list| - 1];
      RemovedMembers(init, id);
      assert list == init + [last];
      assert Removed(list, id) == Removed(init, id) + (if last.id != id then [last] else []);
    }
  }

  // ---------------------------------------------------------------------
  // Properties of the updaters

  /** Adding the same movie twice is adding it once. */
  lemma {:induction false} AddIdempotent(list: seq<Movie>, movie: Movie)
    ensures Added(Added(list, movie), movie) == Added(list, movie)
  {
  }

  /** After adding a movie it is a favourite. */
  lemma {:induction false} AddedIsFavorite(list: seq<Movie>, movie: Movie)
    ensures Find(Added(list, movie), movie.id).Some?
  {
  }

  /** After removing an identifier it is no longer a favourite, and removing
      it again changes nothing. */
  lemma {:induction false} RemovedIsNotFavorite(list: seq<Movie>, id: Option<int>)
    ensures Find(Removed(list, id), id).None?
    ensures Removed(Removed(list, id), id) == Removed(list, id)
  {
  }

  lemma {:induction false} RemovedConcat(a: seq<Movie>, b: seq<Movie>, id: Option<int>)
    ensures Removed(a + b, id) == Removed(a, id) + Removed(b, id)
    decreases |b|
  {
    if b == [] {
      assert a + b == a;
    } else {
      var bi := b[..|b| - 1];
      var last := b[|b| - 1];
      var keep := if last.id != id then [last] else [];
      assert (a + b)[..|a + b| - 1] == a + bi;
      assert (a + b)[|a + b| - 1] == last;
      assert Removed(a + b, id) == Removed(a + bi, id) + keep;
      assert Removed(b, id) == Removed(bi, id) + keep;
      RemovedConcat(a, bi, id);
    }
  }

  /** Removing keeps every other entry, in its original relative order. */
  lemma {:induction false} RemovedIsSubsequence(list: seq<Movie>, id: Option<int>)
    ensures IsSubsequence(Removed(list, id), list)
  {
    if list != [] {
      var init := list[..|list| - 1];
      var last := list[|list| - 1];
      RemovedIsSubsequence(init, id);
      var ri := Removed(init, id);
      var r := Removed(list, id);
      if last.id != id {
        assert r == ri + [last];
        assert r[..|r| - 1] == ri && r[|r| - 1] == last;
      } else {
        assert r == ri;
      }
    }
  }

  /** Adding keeps identifiers unique when they were unique. */
  lemma {:induction false} AddedPreservesUnique(list: seq<Movie>, movie: Movie)
    requires UniqueIds(list)
    ensures UniqueIds(Added(list, movie))
  {
    var r := Added(list, movie);
    if !HasId(list, movie.id) {
      forall i, j | 0 <= i < j < |r| ensures r[i].id != r[j].id {
        if j == |list| {
          assert r[i] == list[i];
        } else {
          assert r[i] == list[i] && r[j] == list[j];
        }
      }
    }
  }

  /** Removing keeps identifiers unique when they were unique. */
  lemma {:induction false} RemovedPreservesUnique(list: seq<Movie>, id: Option<int>)
    requires UniqueIds(list)
    ensures UniqueIds(Removed(list, id))
  {
    if list != [] {
      var init := list[..|list| - 1];
      var last := list[|list| - 1];
      assert UniqueIds(init);
      RemovedPreservesUnique(init, id);
      RemovedMembers(init, id);
      var ri := Removed(init, id);
      var r := Removed(list, id);
      if last.id != id {
        forall i, j | 0 <= i < j < |r| ensures r[i].id != r[j].id {
          if j == |r| - 1 {
            assert r[i] == ri[i] && ri[i] in init;
            var k :| 0 <= k < |init| && init[k] == ri[i];
            assert list[k] == init[k];
          } else {
            assert r[i] == ri[i] && r[j] == ri[j];
          }
        }
      }
    }
  }

  /** Adding a movie that was absent and then removing its identifier gives
      back the original list. */
  lemma {:induction false} AddThenRemove(list: seq<Movie>, movie: Movie)
    requires !HasId(list, movie.id)
    ensures Removed(Added(list, movie), movie.id) == list
  {
    RemovedConcat(list, [movie], movie.id);
    assert [movie][..0] == [];
  }

  /** Removals of two identifiers commute. */
  lemma {:induction false} RemovalsCommute(list: seq<Movie>, a: Option<int>, b: Option<int>)
    ensures Removed(Removed(list, a), b) == Removed(Removed(list, b), a)
  {
    if list != [] {
      var init := list[..|list| - 1];
      var last := list[|list| - 1];
      RemovalsCommute(init, a, b);
      var ka := if last.id != a then [last] else [];
      var kb := if last.id != b then [last] else [];
      RemovedConcat(Removed(init, a), ka, b);
      RemovedConcat(Removed(init, b), kb, a);
      assert ka != [] ==> ka[..0] == [];
      assert kb != [] ==> kb[..0] == [];
    }
  }

  // ---------------------------------------------------------------------
  // Loading and saving

  /** The initial list: the parsed stored text, or the empty list when the
      key is missing, the text is empty, reading throws or parsing fails. */
  function InitialFavorites(read: StoreRead, codec: Codec): (r: seq<Movie>)
    ensures (read.NoItem? || read.ReadThrew? || read == Item("")) ==> r == []
    ensures read.Item? && read.value != "" && codec.decode(read.value).Some? ==> r == codec.decode(read.value).value
    ensures read.Item? && codec.decode(read.value).None? ==> r == []
  {
    match read
    case Item(text) =>
      if text == "" then []
      else (match codec.decode(text) case Some(list) => list case None => [])
    case NoItem => []
    case ReadThrew => []
  }

  /** What the registry writes back is what it loads next time: a store that
      accepted the encoded list yields that list on the next start. */
  lemma {:induction false} SaveThenLoad(items: map<string, string>, codec: Codec, list: seq<Movie>)
    requires RoundTrips(codec, list)
    ensures InitialFavorites(Lookup(Written(items, true, FavoritesKey, codec.encode(list)), true, FavoritesKey), codec) == list
  {
  }

  /** The registry: the `favorites` state slot with its updaters, and the
      effect that mirrors the slot into storage after each change. A failed
      write is caught and logged, never propagated. */
  class FavoritesRegistry {
    var favorites: seq<Movie>
    const store: LocalStore
    const codec: Codec

    /** Mounting: the lazy initial state, then the effect's first write. */
    constructor (store: LocalStore, codec: Codec)
      modifies store
      ensures this.store == store && this.codec == codec
      ensures favorites == InitialFavorites(old(store.GetItem(FavoritesKey)), codec)
      ensures store.readable == old(store.readable) && store.writable == old(store.writable)
      ensures store.items == Written(old(store.items), store.writable, FavoritesKey, codec.encode(favorites))
    {
      this.store := store;
      this.codec := codec;
      favorites := InitialFavorites(store.GetItem(FavoritesKey), codec);
      new;
      Persist();
    }

    /** The effect: write the encoded list, swallowing a failure. */
    method Persist()
      modifies store
      ensures store.readable == old(store.readable) && store.writable == old(store.writable)
      ensures store.items == Written(old(store.items), store.writable, FavoritesKey, codec.encode(favorites))
    {
      // a thrown error is logged and dropped
      var _ := store.SetItem(FavoritesKey, codec.encode(favorites));
    }

    /** `isFavorite(id)` over the current list. */
    function IsFavorite(id: Option<int>): (r: bool)
      reads this
      ensures r <==> HasId(favorites, id)
    {
      Find(favorites, id).Some?
    }

    /** `addFavorite(movie)`. When the movie is already present the updater
        returns the same array, React keeps the state, and the effect does not
        run, so storage is not touched. */
    method Add(movie: Movie)
      modifies this, store
      ensures favorites == Added(old(favorites), movie)
      ensures IsFavorite(movie.id)
      ensures old(UniqueIds(favorites)) ==> UniqueIds(favorites)
      ensures store.readable == old(store.readable) && store.writable == old(store.writable)
      ensures store.items == if old(IsFavorite(movie.id)) then old(store.items)
                             else Written(old(store.items), store.writable, FavoritesKey, codec.encode(favorites))
    {
      if Find(favorites, movie.id).None? {
        if UniqueIds(favorites) {
          AddedPreservesUnique(favorites, movie);
        }
        favorites := Added(favorites, movie);
        Persist();
      }
    }

    /** `removeFavorite(id)`. `filter` always builds a new array, so the
        effect runs and writes even when nothing was removed. */
    method Remove(id: Option<int>)
      modifies this, store
      ensures favorites == Removed(old(favorites), id)
      ensures !IsFavorite(id)
      ensures old(UniqueIds(favorites)) ==> UniqueIds(favorites)
      ensures store.readable == old(store.readable) && store.writable == old(store.writable)
      ensures store.items == Written(old(store.items), store.writable, FavoritesKey, codec.encode(favorites))
    {
      if UniqueIds(favorites) {
        RemovedPreservesUnique(favorites, id);
      }
      favorites := Removed(favorites, id);
      Persist();
    }
  }
}
