/**
 * The catalogue page (`GameListComponent`): the search and genre filters,
 * the three sort orders, and the genre list offered in the filter menu.
 */
module GameList {
  import opened Model
  import opened Seqs
  import opened Sorting
  import opened Text

  /** The `sortBy` signal: one of three keys, rating first. */
  datatype SortKey = ByTitle | ByRating | ByReleaseDate

  const DefaultSort: SortKey := ByRating
  const AllGenresChoice: string := "all"

  /**
   * Whether a lower-cased `search` occurs in the title, developer or a
   * genre, each lower-cased. The empty term matches every game, and a
   * match needs a field at least as long as the term.
   */
  predicate MatchesSearch(g: Game, search: string)
    ensures search == "" ==> MatchesSearch(g, search)
    ensures MatchesSearch(g, search) ==>
              || |search| <= |g.title|
              || |search| <= |g.developer|
              || exists k :: 0 <= k < |g.genre| && |search| <= |g.genre[k]|
  {
    || Contains(ToLower(g.title), search)
    || Contains(ToLower(g.developer), search)
    || exists k :: 0 <= k < |g.genre| && Contains(ToLower(g.genre[k]), search)
  }

  /**
   * Whether the page shows `g` for the current search term and genre
   * choice: with no term and every genre, all games are shown; a shown game
   * matches the lower-cased term and carries the chosen genre.
   */
  predicate Shown(g: Game, searchTerm: string, genre: string)
    ensures searchTerm == "" && genre == AllGenresChoice ==> Shown(g, searchTerm, genre)
    ensures Shown(g, searchTerm, genre) ==> MatchesSearch(g, ToLower(searchTerm))
    ensures Shown(g, searchTerm, genre) && genre != AllGenresChoice ==> genre in g.genre
  {
    && (ToLower(searchTerm) == "" || MatchesSearch(g, ToLower(searchTerm)))
    && (genre == AllGenresChoice || genre in g.genre)
  }

  /** The two filter stages of the `games` signal, in catalogue order. */
  function Selected(games: seq<Game>, searchTerm: string, genre: string): (r: seq<Game>)
    ensures r == Filter(games, (g: Game) => Shown(g, searchTerm, genre))
  {
    var search := ToLower(searchTerm);
    var afterSearch := if search != "" then Filter(games, (g: Game) => MatchesSearch(g, search)) else games;
    var result := if genre != AllGenresChoice then Filter(afterSearch, (g: Game) => genre in g.genre) else afterSearch;
    SelectedIsOneFilter(games, searchTerm, genre);
    result
  }

  /** Running the search filter and then the genre filter is one filter by `Shown`. */
  lemma SelectedIsOneFilter(games: seq<Game>, searchTerm: string, genre: string)
    ensures var search := ToLower(searchTerm);
            var afterSearch := if search != "" then Filter(games, (g: Game) => MatchesSearch(g, search)) else games;
            (if genre != AllGenresChoice then Filter(afterSearch, (g: Game) => genre in g.genre) else afterSearch)
            == Filter(games, (g: Game) => Shown(g, searchTerm, genre))
  {
    var search := ToLower(searchTerm);
    var shown := (g: Game) => Shown(g, searchTerm, genre);
    var bySearch := (g: Game) => MatchesSearch(g, search);
    var byGenre := (g: Game) => genre in g.genre;
    if search != "" && genre != AllGenresChoice {
      FilterFilter(games, bySearch, byGenre, shown);
    } else if search != "" {
      assert forall g :: shown(g) == bySearch(g);
      FilterExt(games, bySearch, shown);
    } else if genre != AllGenresChoice {
      assert forall g :: shown(g) == byGenre(g);
      FilterExt(games, byGenre, shown);
    } else {
      FilterAll(games, shown);
    }
  }

  /** The comparator of each sort key as "a may come before b". */
  function Precedes(key: SortKey, collate: (string, string) -> bool): (Game, Game) -> bool {
    match key
    case ByTitle => (a: Game, b: Game) => collate(a.title, b.title)
    case ByRating => (a: Game, b: Game) => a.averageTenths >= b.averageTenths
    case ByReleaseDate => (a: Game, b: Game) => a.releaseDate >= b.releaseDate
  }

  /** Every sort key orders games consistently when the title collation does. */
  lemma PrecedesTotalPreorder(key: SortKey, collate: (string, string) -> bool)
    requires TotalPreorder(collate)
    ensures TotalPreorder(Precedes(key, collate))
  {
    var le := Precedes(key, collate);
    forall a: Game, b: Game
      ensures le(a, b) || le(b, a)
    {
      if key.ByTitle? {
        assert collate(a.title, b.title) || collate(b.title, a.title);
      }
    }
    forall a: Game, b: Game, c: Game | le(a, b) && le(b, c)
      ensures le(a, c)
    {
      if key.ByTitle? {
        assert collate(a.title, b.title) && collate(b.title, c.title);
      }
    }
  }

  /**
   * The `games` signal: the shown games, sorted by the key. Titles compare
   * with `collate`, standing for `localeCompare(a, b) <= 0`.
   */
  function Visible(games: seq<Game>, searchTerm: string, genre: string, key: SortKey,
                   collate: (string, string) -> bool): (r: seq<Game>)
    ensures multiset(r) == multiset(Selected(games, searchTerm, genre))
  {
    SortBy(Selected(games, searchTerm, genre), Precedes(key, collate))
  }

  /**
   * The visible list holds every game the filters let through and nothing
   * else, as often as the catalogue does, and is in the key's order.
   */
  lemma VisibleIsSortedSelection(games: seq<Game>, searchTerm: string, genre: string, key: SortKey,
                                 collate: (string, string) -> bool)
    requires TotalPreorder(collate)
    ensures var r := Visible(games, searchTerm, genre, key, collate);
            && Sorted(r, Precedes(key, collate))
            && (forall k :: 0 <= k < |r| ==> r[k] in games && Shown(r[k], searchTerm, genre))
            && (forall k :: 0 <= k < |games| && Shown(games[k], searchTerm, genre) ==> games[k] in r)
  {
    var sel := Selected(games, searchTerm, genre);
    var r := Visible(games, searchTerm, genre, key, collate);
    PrecedesTotalPreorder(key, collate);
    SortBySorted(sel, Precedes(key, collate));
    VisibleMembers(games, searchTerm, genre, r);
  }

  /** A reordering of the selection holds exactly the games the filters let through. */
  lemma VisibleMembers(games: seq<Game>, searchTerm: string, genre: string, r: seq<Game>)
    requires multiset(r) == multiset(Selected(games, searchTerm, genre))
    ensures forall k :: 0 <= k < |r| ==> r[k] in games && Shown(r[k], searchTerm, genre)
    ensures forall k :: 0 <= k < |games| && Shown(games[k], searchTerm, genre) ==> games[k] in r
  {
    var p := (g: Game) => Shown(g, searchTerm, genre);
    var sel := Filter(games, p);
    FilterSpec(games, p);
    forall k | 0 <= k < |r|
      ensures r[k] in games && Shown(r[k], searchTerm, genre)
    {
      assert r[k] in multiset(sel);
      var i :| 0 <= i < |sel| && sel[i] == r[k];
    }
    forall k | 0 <= k < |games| && Shown(games[k], searchTerm, genre)
      ensures games[k] in r
    {
      assert games[k] in multiset(r);
    }
  }

  /**
   * The page opens sorted by rating: under the default key the visible
   * games run from the highest average rating to the lowest.
   */
  lemma DefaultSortHighestRatedFirst(games: seq<Game>, searchTerm: string, genre: string,
                                     collate: (string, string) -> bool)
    ensures var r := Visible(games, searchTerm, genre, DefaultSort, collate);
            forall i, j :: 0 <= i < j < |r| ==> r[i].averageTenths >= r[j].averageTenths
  {
    var le := Precedes(DefaultSort, collate);
    assert TotalPreorder(le) by {
      forall a: Game, b: Game
        ensures le(a, b) || le(b, a)
      {
      }
      forall a: Game, b: Game, c: Game | le(a, b) && le(b, c)
        ensures le(a, c)
      {
      }
    }
    SortBySorted(Selected(games, searchTerm, genre), le);
  }

  /**
   * With an empty search and every genre the page lists the whole
   * catalogue, reordered only.
   */
  lemma UnfilteredShowsAll(games: seq<Game>, key: SortKey, collate: (string, string) -> bool)
    ensures multiset(Visible(games, "", AllGenresChoice, key, collate)) == multiset(games)
  {
    FilterAll(games, (g: Game) => Shown(g, "", AllGenresChoice));
  }

  /**
   * Games that tie under the key keep their catalogue order: a stable sort.
   * `tied` picks out games that all compare equal.
   */
  lemma VisibleKeepsTiesInOrder(games: seq<Game>, searchTerm: string, genre: string, key: SortKey,
                                collate: (string, string) -> bool, tied: Game -> bool)
    requires TotalPreorder(collate)
    requires Tied(tied, Precedes(key, collate))
    ensures Filter(Visible(games, searchTerm, genre, key, collate), tied)
         == Filter(Selected(games, searchTerm, genre), tied)
  {
    PrecedesTotalPreorder(key, collate);
    SortByStable(Selected(games, searchTerm, genre), Precedes(key, collate), tied);
  }

  // ---------------------------------------------------------------- genres

  /** The genres of every game, in catalogue order, repeats included. */
  function GenresOf(games: seq<Game>): (r: seq<string>)
    ensures forall x :: x in r <==> exists k :: 0 <= k < |games| && x in games[k].genre
  {
    if |games| == 0 then []
    else
      var rest := GenresOf(games[1..]);
      assert forall x :: (exists k :: 0 <= k < |games| && x in games[k].genre)
                     <==> x in games[0].genre || exists k :: 0 <= k < |games[1..]| && x in games[1..][k].genre by {
        forall x | exists k :: 0 <= k < |games| && x in games[k].genre
          ensures x in games[0].genre || exists k :: 0 <= k < |games[1..]| && x in games[1..][k].genre
        {
          var k :| 0 <= k < |games| && x in games[k].genre;
          if k > 0 {
            assert games[1..][k - 1] == games[k];
          }
        }
      }
      games[0].genre + rest
  }

  /** No element occurs twice. */
  predicate Distinct(s: seq<string>) {
    forall i, j :: 0 <= i < j < |s| ==> s[i] != s[j]
  }

  /** The elements of `s` in order of first occurrence: what a `Set` keeps. */
  function Dedup(s: seq<string>): (r: seq<string>)
    ensures forall x :: x in r <==> x in s
    ensures Distinct(r)
  {
    if |s| == 0 then []
    else
      var d := Dedup(s[..|s| - 1]);
      var x := s[|s| - 1];
      assert s == s[..|s| - 1] + [x];
      if x in d then d else d + [x]
  }

  /** In a sequence without repeats every element occurs once. */
  lemma {:induction false} DistinctOnce(a: seq<string>)
    requires Distinct(a)
    ensures forall x :: multiset(a)[x] <= 1
  {
    if |a| > 0 {
      DistinctOnce(a[1..]);
      assert a == [a[0]] + a[1..];
      assert a[0] !in a[1..];
    }
  }

  /** An element at two positions occurs at least twice. */
  lemma TwoPositions(b: seq<string>, i: nat, j: nat)
    requires i < j < |b| && b[i] == b[j]
    ensures multiset(b)[b[i]] >= 2
  {
    assert b == b[..j] + b[j..];
    assert b[i] in multiset(b[..j]);
    assert b[j] in multiset(b[j..]);
  }

  /** A permutation of a sequence without repeats has no repeats. */
  lemma DistinctPermutation(a: seq<string>, b: seq<string>)
    requires Distinct(a) && multiset(a) == multiset(b)
    ensures Distinct(b)
  {
    DistinctOnce(a);
    forall i, j | 0 <= i < j < |b|
      ensures b[i] != b[j]
    {
      if b[i] == b[j] {
        TwoPositions(b, i, j);
      }
    }
  }

  /** Lexicographic string order is a total preorder. */
  lemma StringLeTotalPreorder()
    ensures TotalPreorder(StringLe)
  {
    forall a, b
      ensures StringLe(a, b) || StringLe(b, a)
    {
      StringLeTotal(a, b);
    }
    forall a, b, c | StringLe(a, b) && StringLe(b, c)
      ensures StringLe(a, c)
    {
      StringLeTransitive(a, b, c);
    }
  }

  /**
   * The `allGenres` signal: every genre of the catalogue once, in ascending
   * order (the default `sort()`, lexicographic by character code).
   */
  function AllGenres(games: seq<Game>): (r: seq<string>)
    ensures forall x :: x in r <==> exists k :: 0 <= k < |games| && x in games[k].genre
    ensures forall i, j :: 0 <= i < j < |r| ==> StringLe(r[i], r[j]) && r[i] != r[j]
  {
    var d := Dedup(GenresOf(games));
    var r := SortBy(d, StringLe);
    StringLeTotalPreorder();
    SortBySorted(d, StringLe);
    DistinctPermutation(d, r);
    assert forall x :: x in r <==> x in d by {
      forall x
        ensures x in r <==> x in d
      {
        assert x in r <==> x in multiset(r);
      }
    }
    r
  }

  /** No genre in the menu sorts no later than an earlier one: the list strictly ascends. */
  lemma AllGenresStrict(games: seq<Game>)
    ensures var r := AllGenres(games);
            forall i, j :: 0 <= i < j < |r| ==> !StringLe(r[j], r[i])
  {
    var r := AllGenres(games);
    forall i, j | 0 <= i < j < |r|
      ensures !StringLe(r[j], r[i])
    {
      if StringLe(r[j], r[i]) {
        StringLeAntisymmetric(r[i], r[j]);
      }
    }
  }
}
