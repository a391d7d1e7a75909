/**
 * The library page (`MyLibraryComponent`): the user's status entries split
 * into four lists by status, each entry joined with its game.
 */
module MyLibrary {
  import opened Wrappers
  import opened Model
  import opened Seqs
  import Store

  /** `{ ...game, status }`: a game together with its status entry. */
  datatype Entry = Entry(game: Game, status: GameStatus)

  /** The map step: the entry joined with its game, or `null` when the catalogue lacks it. */
  function Join(games: seq<Game>, st: GameStatus): (r: Option<Entry>)
    ensures r.None? <==> Store.GameWithId(games, st.gameId).None?
    ensures r.Some? ==> r.value == Entry(Store.GameWithId(games, st.gameId).value, st)
  {
    match Store.GameWithId(games, st.gameId)
    case None => None
    case Some(g) => Some(Entry(g, st))
  }

  /** `.map(...)` over the entries. */
  function JoinAll(games: seq<Game>, sts: seq<GameStatus>): (r: seq<Option<Entry>>)
    ensures |r| == |sts|
    ensures forall k :: 0 <= k < |sts| ==> r[k] == Join(games, sts[k])
  {
    if |sts| == 0 then [] else [Join(games, sts[0])] + JoinAll(games, sts[1..])
  }

  /** `.filter(g => g !== null)`. */
  function DropNulls(xs: seq<Option<Entry>>): (r: seq<Entry>)
    ensures |r| <= |xs|
  {
    if |xs| == 0 then []
    else (if xs[0].Some? then [xs[0].value] else []) + DropNulls(xs[1..])
  }

  /** `getGamesByStatus(status)`: filter the entries by status, join each with its game, drop the unmatched. */
  function GamesByStatus(games: seq<Game>, statuses: seq<GameStatus>, status: Status): (r: seq<Entry>)
    ensures |r| <= |statuses|
  {
    DropNulls(JoinAll(games, Filter(statuses, (st: GameStatus) => st.status == status)))
  }

  /** Whether the catalogue has a game for the entry. */
  predicate Listed(games: seq<Game>, st: GameStatus) {
    Store.GameWithId(games, st.gameId).Some?
  }

  /** Processing one more entry in front adds its joined game in front, if it has this status and a game. */
  lemma GamesByStatusCons(games: seq<Game>, st: GameStatus, rest: seq<GameStatus>, status: Status)
    ensures GamesByStatus(games, [st] + rest, status)
         == (if st.status == status && Listed(games, st) then [Entry(Store.GameWithId(games, st.gameId).value, st)] else [])
            + GamesByStatus(games, rest, status)
  {
    var p := (x: GameStatus) => x.status == status;
    var f := Filter(rest, p);
    assert ([st] + rest)[1..] == rest;
    assert Filter([st] + rest, p) == (if p(st) then [st] else []) + f;
    if p(st) {
      assert ([st] + f)[1..] == f;
      var j := JoinAll(games, [st] + f);
      assert j == [Join(games, st)] + JoinAll(games, f);
      assert j[1..] == JoinAll(games, f);
    } else {
      assert [] + f == f;
    }
  }

  /** How many entries have status `status` and a game in the catalogue. */
  function CountListed(games: seq<Game>, sts: seq<GameStatus>, status: Status): nat {
    if |sts| == 0 then 0
    else (if sts[0].status == status && Listed(games, sts[0]) then 1 else 0) + CountListed(games, sts[1..], status)
  }

  /** How many entries have a game in the catalogue, whatever their status. */
  function CountAllListed(games: seq<Game>, sts: seq<GameStatus>): nat {
    if |sts| == 0 then 0
    else (if Listed(games, sts[0]) then 1 else 0) + CountAllListed(games, sts[1..])
  }

  /** A list has one element per status entry with this status whose game exists. */
  lemma {:induction false} GamesByStatusCount(games: seq<Game>, statuses: seq<GameStatus>, status: Status)
    ensures |GamesByStatus(games, statuses, status)| == CountListed(games, statuses, status)
  {
    if |statuses| > 0 {
      assert statuses == [statuses[0]] + statuses[1..];
      GamesByStatusCount(games, statuses[1..], status);
      GamesByStatusCons(games, statuses[0], statuses[1..], status);
    }
  }

  /** Every element of a list is a status entry with this status, joined with the first game of its id. */
  lemma {:induction false} GamesByStatusSound(games: seq<Game>, statuses: seq<GameStatus>, status: Status)
    ensures var r := GamesByStatus(games, statuses, status);
            forall k :: 0 <= k < |r| ==>
              && r[k].status in statuses
              && r[k].status.status == status
              && Store.GameWithId(games, r[k].status.gameId) == Some(r[k].game)
  {
    if |statuses| > 0 {
      var rest := statuses[1..];
      assert statuses == [statuses[0]] + rest;
      GamesByStatusSound(games, rest, status);
      GamesByStatusCons(games, statuses[0], rest, status);
    }
  }

  /** Every status entry with this status whose game exists appears in the list. */
  lemma {:induction false} GamesByStatusComplete(games: seq<Game>, statuses: seq<GameStatus>, status: Status)
    ensures var r := GamesByStatus(games, statuses, status);
            forall i :: 0 <= i < |statuses| && statuses[i].status == status && Listed(games, statuses[i]) ==>
              exists k :: 0 <= k < |r| && r[k].status == statuses[i]
  {
    if |statuses| > 0 {
      var st := statuses[0];
      var rest := statuses[1..];
      assert statuses == [st] + rest;
      GamesByStatusComplete(games, rest, status);
      GamesByStatusCons(games, st, rest, status);
      var r := GamesByStatus(games, statuses, status);
      var t := GamesByStatus(games, rest, status);
      forall i | 0 <= i < |statuses| && statuses[i].status == status && Listed(games, statuses[i])
        ensures exists k :: 0 <= k < |r| && r[k].status == statuses[i]
      {
        if i == 0 {
          assert r[0].status == st;
        } else {
          assert rest[i - 1] == statuses[i];
          var k :| 0 <= k < |t| && t[k].status == rest[i - 1];
          assert r[|r| - |t| + k] == t[k];
        }
      }
    }
  }

  /** The four lists of the page. */
  datatype Library = Library(playing: seq<Entry>, completed: seq<Entry>, wishlist: seq<Entry>, dropped: seq<Entry>)

  function LibraryOf(games: seq<Game>, statuses: seq<GameStatus>): (r: Library)
    ensures forall k :: 0 <= k < |r.playing| ==> r.playing[k].status.status == Playing
    ensures forall k :: 0 <= k < |r.completed| ==> r.completed[k].status.status == Completed
    ensures forall k :: 0 <= k < |r.wishlist| ==> r.wishlist[k].status.status == Wishlist
    ensures forall k :: 0 <= k < |r.dropped| ==> r.dropped[k].status.status == Dropped
  {
    GamesByStatusSound(games, statuses, Playing);
    GamesByStatusSound(games, statuses, Completed);
    GamesByStatusSound(games, statuses, Wishlist);
    GamesByStatusSound(games, statuses, Dropped);
    Library(
      GamesByStatus(games, statuses, Playing),
      GamesByStatus(games, statuses, Completed),
      GamesByStatus(games, statuses, Wishlist),
      GamesByStatus(games, statuses, Dropped))
  }

  /**
   * The four lists split the entries whose game exists: between them they
   * hold exactly as many entries as there are such status entries.
   */
  lemma LibraryPartition(games: seq<Game>, statuses: seq<GameStatus>)
    ensures var l := LibraryOf(games, statuses);
            |l.playing| + |l.completed| + |l.wishlist| + |l.dropped| == CountAllListed(games, statuses)
  {
    GamesByStatusCount(games, statuses, Playing);
    GamesByStatusCount(games, statuses, Completed);
    GamesByStatusCount(games, statuses, Wishlist);
    GamesByStatusCount(games, statuses, Dropped);
    CountsAddUp(games, statuses);
  }

  lemma {:induction false} CountsAddUp(games: seq<Game>, sts: seq<GameStatus>)
    ensures CountListed(games, sts, Playing) + CountListed(games, sts, Completed)
          + CountListed(games, sts, Wishlist) + CountListed(games, sts, Dropped)
         == CountAllListed(games, sts)
  {
    if |sts| > 0 {
      CountsAddUp(games, sts[1..]);
    }
  }
}
