/**
 * FavoritesManager without its file persistence and its singleton: a list of
 * city names that is mutated in place by add, removeIf and clear. Java's
 * null argument is Option.None.
 */
module Favorites {
  import opened Wrappers
  import opened JavaText

  // ---------------------------------------------------------------- specification

  /** stream().anyMatch(f -> f.equalsIgnoreCase(key)) */
  predicate AnyMatch(favs: seq<string>, key: string)
    ensures AnyMatch(favs, key) <==> exists i :: 0 <= i < |favs| && EqualsIgnoreCase(favs[i], key)
  {
    |favs| > 0 && (EqualsIgnoreCase(favs[0], key) || AnyMatch(favs[1..], key))
  }

  /** isFavorite over a list: false for null, otherwise a case-insensitive
    * match against the trimmed argument. */
  predicate IsFavoriteIn(favs: seq<string>, city: Option<string>)
    ensures IsFavoriteIn(favs, city) <==>
      city.Some? && exists i :: 0 <= i < |favs| && EqualsIgnoreCase(favs[i], Trim(city.value))
  {
    city.Some? && AnyMatch(favs, Trim(city.value))
  }

  /** The list the store keeps when it is built through addFavorite: no two
    * entries equal ignoring case, every entry trimmed. */
  predicate FavoritesInvariant(favs: seq<string>) {
    && (forall i :: 0 <= i < |favs| ==> IsTrimmed(favs[i]))
    && (forall i, j :: 0 <= i < j < |favs| ==> !EqualsIgnoreCase(favs[i], favs[j]))
  }

  /** The list after addFavorite(city): blank or null arguments and existing
    * favourites leave it alone; anything else is appended, trimmed, at the end. */
  function Added(favs: seq<string>, city: Option<string>): (r: seq<string>)
    ensures |favs| <= |r| <= |favs| + 1 && r[..|favs|] == favs
    ensures city.None? || IsBlank(city.value) || IsFavoriteIn(favs, city) ==> r == favs
    ensures city.Some? && !IsBlank(city.value) && !IsFavoriteIn(favs, city) ==>
      |r| == |favs| + 1 && r[|favs|] == Trim(city.value)
  {
    if city.None? || IsBlank(city.value) then favs
    else if IsFavoriteIn(favs, city) then favs
    else favs + [Trim(city.value)]
  }

  /** The list after favorites.removeIf(f -> f.equalsIgnoreCase(key)):
    * the entries that do not match, in their original order. */
  function Without(favs: seq<string>, key: string): (r: seq<string>)
    ensures |r| <= |favs|
    ensures forall i :: 0 <= i < |r| ==> r[i] in favs && !EqualsIgnoreCase(r[i], key)
    ensures forall x :: x in favs && !EqualsIgnoreCase(x, key) ==> x in r
    ensures forall x :: multiset(r)[x] == if EqualsIgnoreCase(x, key) then 0 else multiset(favs)[x]
  {
    assert |favs| > 0 ==> favs == [favs[0]] + favs[1..];
    if |favs| == 0 then []
    else if EqualsIgnoreCase(favs[0], key) then Without(favs[1..], key)
    else [favs[0]] + Without(favs[1..], key)
  }

  /** a is b with some elements left out, the rest kept in order. */
  predicate IsSubsequence(a: seq<string>, b: seq<string>) {
    if |a| == 0 then true
    else if |b| == 0 then false
    else (a[0] == b[0] && IsSubsequence(a[1..], b[1..])) || IsSubsequence(a, b[1..])
  }

  // ---------------------------------------------------------------- properties of add

  /** After adding a non-blank city, it and every case variant of it are
    * favourites. */
  lemma {:induction false} AddedIsFavorite(favs: seq<string>, c: string, variant: string)
    requires !IsBlank(c)
    requires EqualsIgnoreCase(Trim(variant), Trim(c))
    ensures IsFavoriteIn(Added(favs, Some(c)), Some(c))
    ensures IsFavoriteIn(Added(favs, Some(c)), Some(variant))
  {
    var r := Added(favs, Some(c));
    if IsFavoriteIn(favs, Some(c)) {
      var i :| 0 <= i < |favs| && EqualsIgnoreCase(favs[i], Trim(c));
      EqualsIgnoreCaseSymmetric(Trim(variant), Trim(c));
      EqualsIgnoreCaseTransitive(favs[i], Trim(c), Trim(variant));
      assert EqualsIgnoreCase(r[i], Trim(variant));
    } else {
      var n := |favs|;
      assert r[n] == Trim(c);
      EqualsIgnoreCaseSymmetric(Trim(variant), Trim(c));
      assert EqualsIgnoreCase(r[n], Trim(c));
      assert EqualsIgnoreCase(r[n], Trim(variant));
    }
  }

  /** Adding twice is adding once. */
  lemma {:induction false} AddedIdempotent(favs: seq<string>, city: Option<string>)
    ensures Added(Added(favs, city), city) == Added(favs, city)
  {
    if city.Some? && !IsBlank(city.value) {
      AddedIsFavorite(favs, city.value, city.value);
    }
  }

  /** addFavorite keeps the invariant. */
  lemma AddedKeepsInvariant(favs: seq<string>, city: Option<string>)
    requires FavoritesInvariant(favs)
    ensures FavoritesInvariant(Added(favs, city))
  {
    if city.Some? && !IsBlank(city.value) && !IsFavoriteIn(favs, city) {
      assert Added(favs, city) == favs + [Trim(city.value)];
      SnocKeepsInvariant(favs, Trim(city.value));
    }
  }

  /** Appending a trimmed entry that matches none of the others keeps the
    * invariant. */
  lemma SnocKeepsInvariant(favs: seq<string>, x: string)
    requires FavoritesInvariant(favs) && IsTrimmed(x)
    requires forall i :: 0 <= i < |favs| ==> !EqualsIgnoreCase(favs[i], x)
    ensures FavoritesInvariant(favs + [x])
  {
    var r := favs + [x];
    forall i | 0 <= i < |r| ensures IsTrimmed(r[i]) {
      if i < |favs| {
        assert r[i] == favs[i];
      }
    }
    forall i, j | 0 <= i < j < |r| ensures !EqualsIgnoreCase(r[i], r[j]) {
      assert r[i] == favs[i];
      if j < |favs| {
        assert r[j] == favs[j];
      }
    }
  }

  // ---------------------------------------------------------------- properties of remove

  lemma {:induction false} WithoutIsSubsequence(favs: seq<string>, key: string)
    ensures IsSubsequence(Without(favs, key), favs)
    decreases |favs|
  {
    if |favs| > 0 {
      WithoutIsSubsequence(favs[1..], key);
      var rest := Without(favs[1..], key);
      if !EqualsIgnoreCase(favs[0], key) {
        assert ([favs[0]] + rest)[1..] == rest;
      } else {
        SubsequenceOfTail(rest, favs);
      }
    }
  }

  lemma {:induction false} SubsequenceOfTail(a: seq<string>, b: seq<string>)
    requires |b| > 0 && IsSubsequence(a, b[1..])
    ensures IsSubsequence(a, b)
  {
  }

  /** After removeFavorite(c), c is no longer a favourite. */
  lemma {:induction false} WithoutIsNotFavorite(favs: seq<string>, c: string)
    ensures !IsFavoriteIn(Without(favs, Trim(c)), Some(c))
  {
  }

  /** Removing keeps the invariant. */
  lemma {:induction false} WithoutKeepsInvariant(favs: seq<string>, key: string)
    requires FavoritesInvariant(favs)
    ensures FavoritesInvariant(Without(favs, key))
    decreases |favs|
  {
    if |favs| > 0 {
      var rest := favs[1..];
      var w := Without(rest, key);
      assert favs == [favs[0]] + rest;
      TailKeepsInvariant(favs[0], rest);
      WithoutKeepsInvariant(rest, key);
      if EqualsIgnoreCase(favs[0], key) {
        assert Without(favs, key) == w;
      } else {
        assert Without(favs, key) == [favs[0]] + w;
        ConsKeepsInvariant(favs[0], rest, w);
      }
    }
  }

  /** Dropping the head keeps the invariant. */
  lemma TailKeepsInvariant(head: string, rest: seq<string>)
    requires FavoritesInvariant([head] + rest)
    ensures FavoritesInvariant(rest)
  {
    var favs := [head] + rest;
    forall i | 0 <= i < |rest| ensures IsTrimmed(rest[i]) {
      assert rest[i] == favs[i + 1];
    }
    forall i, j | 0 <= i < j < |rest| ensures !EqualsIgnoreCase(rest[i], rest[j]) {
      assert rest[i] == favs[i + 1] && rest[j] == favs[j + 1];
    }
  }

  /** Putting back a head that differs from every entry of the tail, when
    * the tail is filtered down to w, keeps the invariant. */
  lemma ConsKeepsInvariant(head: string, rest: seq<string>, w: seq<string>)
    requires FavoritesInvariant([head] + rest) && FavoritesInvariant(w)
    requires forall i :: 0 <= i < |w| ==> w[i] in rest
    ensures FavoritesInvariant([head] + w)
  {
    var favs := [head] + rest;
    var r := [head] + w;
    assert r[0] == head == favs[0] && IsTrimmed(favs[0]);
    forall i | 0 < i < |r| ensures IsTrimmed(r[i]) {
      assert r[i] == w[i - 1];
    }
    forall i, j | 0 <= i < j < |r| ensures !EqualsIgnoreCase(r[i], r[j]) {
      if i == 0 {
        assert r[j] == w[j - 1] && w[j - 1] in rest;
        var k :| 0 <= k < |rest| && rest[k] == w[j - 1];
        assert favs[k + 1] == r[j];
      } else {
        assert r[i] == w[i - 1] && r[j] == w[j - 1];
      }
    }
  }

  /** Clearing gives a list that satisfies the invariant and holds nothing. */
  lemma ClearedIsEmpty(city: Option<string>)
    ensures FavoritesInvariant([])
    ensures !IsFavoriteIn([], city)
  {
  }

  /** "Warsaw" is not blank, and it and "warsaw" are trimmed case variants. */
  lemma WarsawSpellings()
    ensures !IsBlank("Warsaw")
    ensures Trim("Warsaw") == "Warsaw" && Trim("warsaw") == "warsaw"
    ensures EqualsIgnoreCase("warsaw", "Warsaw")
  {
    assert EqualsIgnoreCase("warsaw", "Warsaw");
    assert !IsBlank("Warsaw") by {
      assert !IsWhitespace("Warsaw"[0]);
    }
    TrimOfTrimmed("Warsaw");
    TrimOfTrimmed("warsaw");
  }

  /** The store's round trip: add "Warsaw", find "warsaw" as a favourite,
    * remove it, and it is no longer one. */
  lemma WarsawRoundTrip()
    ensures IsFavoriteIn(Added([], Some("Warsaw")), Some("warsaw"))
    ensures !IsFavoriteIn(Without(Added([], Some("Warsaw")), Trim("Warsaw")), Some("Warsaw"))
  {
    WarsawSpellings();
    AddedIsFavorite([], "Warsaw", "warsaw");
    WithoutIsNotFavorite(Added([], Some("Warsaw")), "Warsaw");
  }

  /** isBlank and trim disagree on control characters: a NUL is not blank, so
    * it is added, and trimming turns it into an empty entry. */
  lemma ControlCharacterAddsEmptyEntry()
    ensures Added([], Some("\U{0000}")) == [""]
  {
    assert !IsWhitespace('\U{0000}');
    assert !IsBlank("\U{0000}") by { assert "\U{0000}"[0] == '\U{0000}'; }
    assert TrimStart("\U{0000}") == "";
  }

  // ---------------------------------------------------------------- the store

  class FavoritesManager {
    var favorites: seq<string>

    ghost predicate Valid()
      reads this
    {
      FavoritesInvariant(favorites)
    }

    /** The store as loadFromFile leaves it: the saved entries, as they are. */
    constructor (initial: seq<string>)
      ensures favorites == initial
    {
      favorites := initial;
    }

    /** isFavorite */
    predicate IsFavorite(city: Option<string>)
      reads this
      ensures IsFavorite(city) <==> city.Some? && exists i :: 0 <= i < |favorites| && EqualsIgnoreCase(favorites[i], Trim(city.value))
    {
      city.Some? && AnyMatch(favorites, Trim(city.value))
    }

    /** addFavorite */
    method AddFavorite(city: Option<string>)
      modifies this
      ensures favorites == Added(old(favorites), city)
      ensures old(Valid()) ==> Valid()
    {
      if city.None? || IsBlank(city.value) {
        return;
      }
      if !IsFavorite(city) {
        if Valid() {
          AddedKeepsInvariant(favorites, city);
        }
        favorites := favorites + [Trim(city.value)];
      }
    }

    /** removeFavorite: a null argument raises NullPointerException as soon as
      * removeIf tests its first entry, leaving the list as it was. */
    method RemoveFavorite(city: Option<string>) returns (raised: bool)
      modifies this
      ensures raised <==> city.None? && |old(favorites)| > 0
      ensures city.None? ==> favorites == old(favorites)
      ensures city.Some? ==> favorites == Without(old(favorites), Trim(city.value))
      ensures old(Valid()) ==> Valid()
    {
      if city.None? {
        raised := |favorites| > 0;
        return;
      }
      raised := false;
      if Valid() {
        WithoutKeepsInvariant(favorites, Trim(city.value));
      }
      favorites := Without(favorites, Trim(city.value));
    }

    /** getFavorites: a copy of the current list. */
    method GetFavorites() returns (r: seq<string>)
      ensures r == favorites
    {
      r := favorites;
    }

    /** clearAll */
    method ClearAll()
      modifies this
      ensures favorites == [] && Valid()
    {
      favorites := [];
    }
  }
}
