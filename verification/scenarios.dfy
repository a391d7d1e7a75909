/**
 * The store started from its mock data, and the concrete behaviours of the
 * seeded store.
 */
module Scenarios {
  import opened Wrappers
  import opened Model
  import opened Store
  import opened MockData
  import opened Seqs

  /**
   * The service as constructed, with the seed's long texts taken from `t`:
   * signals and subjects both start from the mock data.
   */
  function InitialWith(now: Time, t: SeedTexts): (s: State)
    ensures InSync(s) && s.trace == []
    ensures s.statuses == MockGameStatuses(now)
  {
    State(MockGamesWith(t), MockGameStatuses(now), MockReviewsWith(t), MockGamesWith(t), MockReviewsWith(t), [])
  }

  /** The service as constructed, from `getMockGames()` and `getMockReviews()`. */
  function Initial(now: Time): (s: State)
    ensures InSync(s) && s.trace == []
    ensures s.games == MockGames() && s.reviews == MockReviews()
  {
    InitialWith(now, Texts)
  }

  /**
   * Game 1 is seeded as 4.5 from 3 reviews, but its seeded reviews rate it
   * 4, 3 and 4, which average 3.7.
   */
  lemma SeedGameOneInconsistent(now: Time, t: SeedTexts)
    ensures !Consistent(InitialWith(now, t).games, InitialWith(now, t).reviews, "1")
  {
    var s := InitialWith(now, t);
    assert s.games[0].id == "1" && s.games[0].averageTenths == 45;
    var R := s.reviews;
    assert |R| == 9;
    assert R[0].gameId == "1" && R[1].gameId == "1" && R[2].gameId == "1";
    assert forall k :: 3 <= k < 9 ==> R[k].gameId != "1";
    ReviewsForPrefix(R, "1", 3);
    assert R[0].rating == 4 && R[1].rating == 3 && R[2].rating == 4;
    SumFirstThree(R);
  }

  /** The service as constructed already shows game 1 with an aggregate its reviews do not give. */
  lemma InitialGameOneInconsistent(now: Time)
    ensures !Consistent(Initial(now).games, Initial(now).reviews, "1")
  {
    SeedGameOneInconsistent(now, Texts);
  }

  /**
   * Game 2 is seeded as 4.2 from 2 reviews, but its seeded reviews rate it
   * 2 and 3, which average 2.5.
   */
  lemma SeedGameTwoInconsistent(now: Time, t: SeedTexts)
    ensures !Consistent(InitialWith(now, t).games, InitialWith(now, t).reviews, "2")
  {
    var s := InitialWith(now, t);
    assert s.games[1].id == "2" && s.games[1].averageTenths == 42;
    var R := s.reviews;
    assert |R| == 9 && R[3].gameId == "2" && R[4].gameId == "2";
    assert forall k :: 0 <= k < 9 && (k < 3 || 5 <= k) ==> R[k].gameId != "2";
    ReviewsForSlice(R, "2", 3, 5);
    SumTwo(R[3..5]);
    assert SumRatings(R[3..5]) == 5;
  }

  /**
   * A game is consistent when it is the only game with its id, its reviews
   * are exactly those stored at `lo..hi`, and it shows their count and mean.
   */
  lemma ConsistentFromSlice(games: seq<Game>, reviews: seq<Review>, id: string, gi: nat, lo: nat, hi: nat)
    requires gi < |games| && games[gi].id == id
    requires forall i :: 0 <= i < |games| && i != gi ==> games[i].id != id
    requires lo < hi <= |reviews|
    requires forall k :: lo <= k < hi ==> reviews[k].gameId == id
    requires forall k :: 0 <= k < |reviews| && (k < lo || hi <= k) ==> reviews[k].gameId != id
    requires games[gi].totalReviews == hi - lo && games[gi].averageTenths == MeanTenths(reviews[lo..hi])
    ensures Consistent(games, reviews, id)
  {
    ReviewsForSlice(reviews, id, lo, hi);
  }

  /** Game 3 is seeded as 3.5 from 2 reviews, and its seeded reviews rate it 4 and 3. */
  lemma SeedGameThreeConsistent(now: Time, t: SeedTexts)
    ensures Consistent(InitialWith(now, t).games, InitialWith(now, t).reviews, "3")
  {
    var s := InitialWith(now, t);
    var R := s.reviews;
    assert |R| == 9 && R[5].gameId == "3" && R[6].gameId == "3";
    assert forall k :: 0 <= k < 9 && (k < 5 || 7 <= k) ==> R[k].gameId != "3";
    assert forall i :: 0 <= i < 6 && i != 2 ==> s.games[i].id != "3";
    SumTwo(R[5..7]);
    ConsistentFromSlice(s.games, R, "3", 2, 5, 7);
  }

  /** Game 4 is seeded as 4.0 from the one seeded review, which rates it 4. */
  lemma SeedGameFourConsistent(now: Time, t: SeedTexts)
    ensures Consistent(InitialWith(now, t).games, InitialWith(now, t).reviews, "4")
  {
    var s := InitialWith(now, t);
    var R := s.reviews;
    assert |R| == 9 && R[7].gameId == "4";
    assert forall k :: 0 <= k < 9 && k != 7 ==> R[k].gameId != "4";
    assert forall i :: 0 <= i < 6 && i != 3 ==> s.games[i].id != "4";
    ConsistentFromSlice(s.games, R, "4", 3, 7, 8);
  }

  /** Game 5 is seeded as 4.0 from the one seeded review, which rates it 4. */
  lemma SeedGameFiveConsistent(now: Time, t: SeedTexts)
    ensures Consistent(InitialWith(now, t).games, InitialWith(now, t).reviews, "5")
  {
    var s := InitialWith(now, t);
    var R := s.reviews;
    assert |R| == 9 && R[8].gameId == "5";
    assert forall k :: 0 <= k < 8 ==> R[k].gameId != "5";
    assert forall i :: 0 <= i < 6 && i != 4 ==> s.games[i].id != "5";
    ConsistentFromSlice(s.games, R, "5", 4, 8, 9);
  }

  /** Game 6 is seeded with no rating and no reviews, and has none. */
  lemma SeedGameSixConsistent(now: Time, t: SeedTexts)
    ensures Consistent(InitialWith(now, t).games, InitialWith(now, t).reviews, "6")
  {
    var s := InitialWith(now, t);
    SeedGameSixUnreviewed(now, t);
    assert forall i :: 0 <= i < 5 ==> s.games[i].id != "6";
  }

  /** The sum of two ratings. */
  lemma SumTwo(rs: seq<Review>)
    requires |rs| == 2
    ensures SumRatings(rs) == rs[0].rating + rs[1].rating
  {
    assert rs[1..][1..] == [];
  }

  /** The sum of the first three ratings. */
  lemma SumFirstThree(rs: seq<Review>)
    requires |rs| >= 3
    ensures SumRatings(rs[..3]) == rs[0].rating + rs[1].rating + rs[2].rating
  {
    var t := rs[..3];
    var t1 := t[1..];
    var t2 := t1[1..];
    assert t2[1..] == [];
    assert SumRatings(t2) == rs[2].rating + SumRatings(t2[1..]);
    assert SumRatings(t1) == rs[1].rating + SumRatings(t2);
  }

  /** A review draft for a game with just a rating. */
  function RatingOnly(gameId: string, rating: Rating): ReviewDraft {
    ReviewDraft(gameId, "You", None, rating, "", "", None)
  }

  /** Two ratings summing to 6 average 3.0. */
  lemma MeanOfTwoSummingToSix(rs: seq<Review>)
    requires |rs| == 2 && SumRatings(rs) == 6
    ensures MeanTenths(rs) == 30
  {
  }

  /**
   * A game with no reviews, rated 4 and then 2, shows 3.0 from 2 reviews.
   */
  lemma TwoReviewsOnFreshGame(s: State, k: nat, gameId: string, c1: int, c2: int, t1: Time, t2: Time)
    requires k < |s.games| && s.games[k].id == gameId
    requires ReviewsFor(s.reviews, gameId) == []
    ensures var s' := AddReview(AddReview(s, RatingOnly(gameId, 4), c1, t1).state, RatingOnly(gameId, 2), c2, t2).state;
            s'.games[k].id == gameId && s'.games[k].averageTenths == 30 && s'.games[k].totalReviews == 2
  {
    var p1 := AddReview(s, RatingOnly(gameId, 4), c1, t1);
    var p2 := AddReview(p1.state, RatingOnly(gameId, 2), c2, t2);
    var rs := ReviewsFor(p2.state.reviews, gameId);
    assert |rs| == 2 && SumRatings(rs) == 6 by {
      ReviewsForAppend(s.reviews, p1.review, gameId);
      ReviewsForAppend(p1.state.reviews, p2.review, gameId);
      assert rs == [p1.review, p2.review];
      assert rs[1..] == [p2.review];
    }
    MeanOfTwoSummingToSix(rs);
    assert p1.state.games[k].id == gameId;
  }

  /** Seeded game 6 is the sixth game and has no reviews. */
  lemma SeedGameSixUnreviewed(now: Time, t: SeedTexts)
    ensures InitialWith(now, t).games[5].id == "6"
    ensures ReviewsFor(InitialWith(now, t).reviews, "6") == []
  {
    var s := InitialWith(now, t);
    assert forall i :: 0 <= i < |s.reviews| ==> s.reviews[i].gameId != "6";
    ReviewsForPrefix(s.reviews, "6", 0);
  }

  /** Rating seeded game 6 with 4 and then 2 leaves it at 3.0 from 2 reviews. */
  lemma SeedGameSixFourThenTwo(now: Time, t: SeedTexts, c1: int, c2: int, t1: Time, t2: Time)
    ensures var s := InitialWith(now, t);
            var s' := AddReview(AddReview(s, RatingOnly("6", 4), c1, t1).state, RatingOnly("6", 2), c2, t2).state;
            s'.games[5].id == "6" && s'.games[5].averageTenths == 30 && s'.games[5].totalReviews == 2
  {
    SeedGameSixUnreviewed(now, t);
    TwoReviewsOnFreshGame(InitialWith(now, t), 5, "6", c1, c2, t1, t2);
  }

  /** Looking up an id no game has is absent, not an error. */
  lemma MissingGameIsAbsent(now: Time, t: SeedTexts)
    ensures GetGameById(InitialWith(now, t), "missing-id") == None
  {
    var gs := InitialWith(now, t).games;
    assert |gs| == 6;
    assert forall i :: 0 <= i < 6 ==> |gs[i].id| == 1;
  }
}
