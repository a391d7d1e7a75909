/**
 * The in-memory store of the game tracker (`GameService`): three
 * collections replaced copy-on-write by two commands, read by four queries,
 * with two `BehaviorSubject`s that are pushed new snapshots after a review
 * is added.
 *
 * The store is an immutable `State`; a command is a function from the old
 * state to the new one. Signals are the fields `games`, `statuses` and
 * `reviews`; the subjects' current values are `gamesSubject` and
 * `reviewsSubject`; every `next(...)` on a subject is appended to `trace`.
 */
module Store {
  import opened Wrappers
  import opened Model
  import opened Seqs
  import Text

  /** The mocked identity of the only user. */
  const CurrentUserId: string := "user-1"

  /** One push on a subject, carrying the snapshot that subscribers receive. */
  datatype Notification = ReviewsNext(reviews: seq<Review>) | GamesNext(games: seq<Game>)

  datatype State = State(
    games: seq<Game>,
    statuses: seq<GameStatus>,
    reviews: seq<Review>,
    gamesSubject: seq<Game>,
    reviewsSubject: seq<Review>,
    trace: seq<Notification>)

  /** The subjects' current values agree with the signals. */
  ghost predicate InSync(s: State) {
    s.gamesSubject == s.games && s.reviewsSubject == s.reviews
  }

  /** The argument of `updateGameStatus`: a status entry without `userId`. */
  datatype StatusDraft = StatusDraft(
    gameId: string,
    status: Status,
    hoursPlayed: Option<int>,
    lastPlayed: Option<Time>,
    addedDate: Time)

  /** The argument of `addReview`: a review without the fields the store fills in. */
  datatype ReviewDraft = ReviewDraft(
    gameId: string,
    userName: string,
    userAvatar: Option<string>,
    rating: Rating,
    title: string,
    content: string,
    updatedAt: Option<Time>)

  // ---------------------------------------------------------------- queries

  /**
   * `getGames()`: the observable emits, after its delay, the games signal
   * read when it was called, not the subject; later commands do not change
   * what it emits. The two agree while the store is in step.
   */
  function GetGames(s: State): seq<Game> {
    s.games
  }

  /** The first game with id `id` in `games`, as `games.find(g => g.id === id)` returns it. */
  function GameWithId(games: seq<Game>, id: string): (r: Option<Game>)
    ensures r.None? <==> forall i :: 0 <= i < |games| ==> games[i].id != id
    ensures r.Some? ==> exists i :: 0 <= i < |games| && games[i] == r.value && r.value.id == id
                                  && forall j :: 0 <= j < i ==> games[j].id != id
  {
    Find(games, (g: Game) => g.id == id)
  }

  /** `getGameById(id)`: the first game with that id in the snapshot, or absent. */
  function GetGameById(s: State, id: string): (r: Option<Game>)
    ensures r.None? <==> forall i :: 0 <= i < |s.games| ==> s.games[i].id != id
    ensures r.Some? ==> exists i :: 0 <= i < |s.games| && s.games[i] == r.value && r.value.id == id
                                  && forall j :: 0 <= j < i ==> s.games[j].id != id
  {
    GameWithId(GetGames(s), id)
  }

  /**
   * `getUserGameStatuses()`: the whole statuses snapshot, in storage order,
   * with no filter by user.
   */
  function GetUserGameStatuses(s: State): seq<GameStatus> {
    s.statuses
  }

  /** The reviews of one game, in storage order. */
  function ReviewsFor(reviews: seq<Review>, gameId: string): (r: seq<Review>)
    ensures |r| <= |reviews|
    ensures forall k :: 0 <= k < |r| ==> r[k].gameId == gameId && r[k] in reviews
    ensures forall k :: 0 <= k < |reviews| && reviews[k].gameId == gameId ==> reviews[k] in r
  {
    FilterSpec(reviews, (x: Review) => x.gameId == gameId);
    Filter(reviews, (x: Review) => x.gameId == gameId)
  }

  /** Appending a review adds it to its own game's list, at the end, and to no other. */
  lemma ReviewsForAppend(reviews: seq<Review>, x: Review, gameId: string)
    ensures ReviewsFor(reviews + [x], gameId)
         == ReviewsFor(reviews, gameId) + (if x.gameId == gameId then [x] else [])
  {
    FilterAppend(reviews, [x], (y: Review) => y.gameId == gameId);
    FilterSingleton(x, (y: Review) => y.gameId == gameId);
  }

  /** When a game's reviews are exactly the first `k` stored, those are its list. */
  lemma ReviewsForPrefix(reviews: seq<Review>, gameId: string, k: nat)
    requires k <= |reviews|
    requires forall i :: 0 <= i < k ==> reviews[i].gameId == gameId
    requires forall i :: k <= i < |reviews| ==> reviews[i].gameId != gameId
    ensures ReviewsFor(reviews, gameId) == reviews[..k]
  {
    var p := (x: Review) => x.gameId == gameId;
    assert reviews == reviews[..k] + reviews[k..];
    FilterAppend(reviews[..k], reviews[k..], p);
    FilterAll(reviews[..k], p);
    FilterNone(reviews[k..], p);
  }

  /** When a game's reviews are exactly those stored at `i..j`, those are its list. */
  lemma ReviewsForSlice(reviews: seq<Review>, gameId: string, i: nat, j: nat)
    requires i <= j <= |reviews|
    requires forall k :: i <= k < j ==> reviews[k].gameId == gameId
    requires forall k :: 0 <= k < |reviews| && (k < i || j <= k) ==> reviews[k].gameId != gameId
    ensures ReviewsFor(reviews, gameId) == reviews[i..j]
  {
    var p := (x: Review) => x.gameId == gameId;
    assert reviews == reviews[..i] + (reviews[i..j] + reviews[j..]);
    FilterAppend(reviews[..i], reviews[i..j] + reviews[j..], p);
    FilterAppend(reviews[i..j], reviews[j..], p);
    FilterNone(reviews[..i], p);
    FilterAll(reviews[i..j], p);
    FilterNone(reviews[j..], p);
  }

  /**
   * `getReviewsForGame(id)`: the first value the reviews subject delivers to
   * a new subscriber (its current value), filtered to the game.
   */
  function GetReviewsForGame(s: State, gameId: string): (r: seq<Review>)
    ensures forall k :: 0 <= k < |r| ==> r[k].gameId == gameId && r[k] in s.reviewsSubject
    ensures forall k :: 0 <= k < |s.reviewsSubject| && s.reviewsSubject[k].gameId == gameId
              ==> s.reviewsSubject[k] in r
  {
    ReviewsFor(s.reviewsSubject, gameId)
  }

  // --------------------------------------------------------- status upsert

  /** `i` is the first position of `l` holding an entry for `gameId`. */
  ghost predicate FirstFor(l: seq<GameStatus>, gameId: string, i: int) {
    && 0 <= i < |l|
    && l[i].gameId == gameId
    && forall j :: 0 <= j < i ==> l[j].gameId != gameId
  }

  ghost predicate HasEntryFor(l: seq<GameStatus>, gameId: string) {
    exists i :: 0 <= i < |l| && l[i].gameId == gameId
  }

  /** At most one entry per game. */
  ghost predicate UniqueGameIds(l: seq<GameStatus>) {
    forall i, j :: 0 <= i < j < |l| ==> l[i].gameId != l[j].gameId
  }

  /** The stored entry for a draft: the draft's fields plus the current user. */
  function EntryOf(d: StatusDraft): (e: GameStatus)
    ensures e.userId == CurrentUserId
  {
    GameStatus(d.gameId, CurrentUserId, d.status, d.hoursPlayed, d.lastPlayed, d.addedDate)
  }

  /**
   * Replace the first entry for the same game wholesale, or append the new
   * entry when the game has none.
   */
  function UpsertStatus(l: seq<GameStatus>, e: GameStatus): (r: seq<GameStatus>)
    ensures forall i :: FirstFor(l, e.gameId, i) ==>
              && |r| == |l|
              && r[i] == e
              && forall j :: 0 <= j < |l| && j != i ==> r[j] == l[j]
    ensures !HasEntryFor(l, e.gameId) ==> r == l + [e]
  {
    var i := FirstIndex(l, (x: GameStatus) => x.gameId == e.gameId);
    if i >= 0 then l[i := e] else l + [e]
  }

  /** After an upsert the first entry for the game is the new one. */
  lemma UpsertThenFirst(l: seq<GameStatus>, e: GameStatus)
    ensures Find(UpsertStatus(l, e), (x: GameStatus) => x.gameId == e.gameId) == Some(e)
  {
    var r := UpsertStatus(l, e);
    var p := (x: GameStatus) => x.gameId == e.gameId;
    if HasEntryFor(l, e.gameId) {
      var i := FirstIndex(l, p);
      assert FirstFor(l, e.gameId, i);
      assert forall j :: 0 <= j < i ==> r[j] == l[j];
    } else {
      assert r == l + [e];
      assert forall j :: 0 <= j < |l| ==> r[j] == l[j] && !p(r[j]);
      assert p(r[|l|]);
    }
  }

  /** Upserting the same entry twice is upserting it once. */
  lemma UpsertIdempotent(l: seq<GameStatus>, e: GameStatus)
    ensures UpsertStatus(UpsertStatus(l, e), e) == UpsertStatus(l, e)
  {
    var r := UpsertStatus(l, e);
    var p := (x: GameStatus) => x.gameId == e.gameId;
    UpsertThenFirst(l, e);
    var i := FirstIndex(r, p);
    assert FirstFor(r, e.gameId, i);
    assert r[i] == e;
  }

  /** An upsert never introduces a second entry for a game. */
  lemma UpsertKeepsUnique(l: seq<GameStatus>, e: GameStatus)
    requires UniqueGameIds(l)
    ensures UniqueGameIds(UpsertStatus(l, e))
  {
    var p := (x: GameStatus) => x.gameId == e.gameId;
    var i := FirstIndex(l, p);
    if i >= 0 {
      assert FirstFor(l, e.gameId, i);
    }
  }

  /** `updateGameStatus(draft)`: upsert the entry; no subject is pushed and nothing else changes. */
  function UpdateGameStatus(s: State, d: StatusDraft): (s': State)
    ensures s'.statuses == UpsertStatus(s.statuses, EntryOf(d))
    ensures s'.games == s.games && s'.reviews == s.reviews
    ensures s'.gamesSubject == s.gamesSubject && s'.reviewsSubject == s.reviewsSubject
    ensures s'.trace == s.trace
  {
    s.(statuses := UpsertStatus(s.statuses, EntryOf(d)))
  }

  // ------------------------------------------------------- rating aggregate

  /** The sum of the reviews' ratings. */
  function SumRatings(rs: seq<Review>): (n: int)
    ensures 0 <= n <= 5 * |rs|
  {
    if |rs| == 0 then 0 else rs[0].rating + SumRatings(rs[1..])
  }

  /**
   * `Math.round(mean * 10)`, computed exactly: the integer nearest to ten
   * times the mean rating, halves rounded up.
   */
  function MeanTenths(rs: seq<Review>): (t: int)
    requires |rs| > 0
    ensures |rs| * (2 * t - 1) <= 20 * SumRatings(rs) < |rs| * (2 * t + 1)
    ensures 0 <= t <= 50
  {
    var n := |rs|;
    var sum := SumRatings(rs);
    var t := (20 * sum + n) / (2 * n);
    RoundingBounds(sum, n, t);
    t
  }

  /** Division facts behind `MeanTenths`. */
  lemma RoundingBounds(sum: int, n: int, t: int)
    requires 0 < n && 0 <= sum <= 5 * n
    requires t == (20 * sum + n) / (2 * n)
    ensures n * (2 * t - 1) <= 20 * sum < n * (2 * t + 1)
    ensures 0 <= t <= 50
  {
    var q := 20 * sum + n;
    var m := 2 * n;
    var r := q % m;
    assert q == m * t + r && 0 <= r < m;
    assert n * (2 * t - 1) == m * t - n;
    assert n * (2 * t + 1) == m * t + n;
    if t < 0 {
      MulMonotone(m, t, -1);
    }
    if t > 50 {
      MulMonotone(m, 51, t);
    }
  }

  /** Multiplying by a non-negative factor keeps an inequality. */
  lemma MulMonotone(a: int, b: int, c: int)
    requires a >= 0 && b <= c
    ensures a * b <= a * c
  {
  }

  /** The aggregate a game with this id should show: zero with no reviews. */
  function ExpectedTenths(reviews: seq<Review>, gameId: string): int {
    var rs := ReviewsFor(reviews, gameId);
    if |rs| == 0 then 0 else MeanTenths(rs)
  }

  /**
   * Every game with this id shows the count of its reviews and their mean
   * rounded to one decimal.
   */
  ghost predicate Consistent(games: seq<Game>, reviews: seq<Review>, gameId: string) {
    forall i :: 0 <= i < |games| && games[i].id == gameId ==>
      && games[i].totalReviews == |ReviewsFor(reviews, gameId)|
      && games[i].averageTenths == ExpectedTenths(reviews, gameId)
  }

  /** The two games differ at most in their rating aggregate. */
  ghost predicate SameButAggregate(g: Game, h: Game) {
    g.(averageTenths := h.averageTenths, totalReviews := h.totalReviews) == h
  }

  /**
   * The `games.map` of `updateGameRating`: games with this id get the new
   * `averageRating` and `totalReviews`; every other game and every other
   * field is left as it was.
   */
  function RecomputeRating(games: seq<Game>, reviews: seq<Review>, gameId: string): (r: seq<Game>)
    requires |ReviewsFor(reviews, gameId)| > 0
    ensures |r| == |games|
    ensures forall i :: 0 <= i < |games| && games[i].id != gameId ==> r[i] == games[i]
    ensures forall i :: 0 <= i < |games| && games[i].id == gameId ==>
              && SameButAggregate(r[i], games[i])
              && 0 <= r[i].averageTenths <= 50
              && r[i].totalReviews >= 1
    ensures Consistent(r, reviews, gameId)
  {
    var rs := ReviewsFor(reviews, gameId);
    var avg := MeanTenths(rs);
    seq(|games|, i requires 0 <= i < |games| =>
      if games[i].id == gameId then games[i].(averageTenths := avg, totalReviews := |rs|)
      else games[i])
  }

  /** A recomputation for an id no game has leaves the games as they were. */
  lemma RecomputeUnknownGame(games: seq<Game>, reviews: seq<Review>, gameId: string)
    requires |ReviewsFor(reviews, gameId)| > 0
    requires forall i :: 0 <= i < |games| ==> games[i].id != gameId
    ensures RecomputeRating(games, reviews, gameId) == games
  {
  }

  /**
   * `updateGameRating(id)`: write the recomputed games into the signal and
   * push them on the games subject. The source divides by the number of
   * matching reviews; its only caller has just added one.
   */
  function UpdateGameRating(s: State, gameId: string): (s': State)
    requires |ReviewsFor(s.reviews, gameId)| > 0
    ensures s'.games == s'.gamesSubject
    ensures s'.trace == s.trace + [GamesNext(s'.games)]
    ensures Consistent(s'.games, s'.reviews, gameId)
    ensures s'.statuses == s.statuses && s'.reviews == s.reviews && s'.reviewsSubject == s.reviewsSubject
  {
    var games := RecomputeRating(s.games, s.reviews, gameId);
    s.(games := games, gamesSubject := games, trace := s.trace + [GamesNext(games)])
  }

  // ------------------------------------------------------------ add review

  /**
   * The id `review-${Date.now()}` for a clock reading in milliseconds: the
   * prefix, then the reading, with a minus sign only for a reading before
   * the epoch.
   */
  function ReviewId(clock: int): (r: string)
    ensures |r| >= 8 && r[..7] == "review-"
    ensures r[7] == '-' <==> clock < 0
  {
    "review-" + Text.Decimal(clock)
  }

  /**
   * Review ids are exactly as unique as the clock readings they come from:
   * two reviews added within the same millisecond get the same id.
   */
  lemma ReviewIdCollision(c1: int, c2: int)
    ensures ReviewId(c1) == ReviewId(c2) <==> c1 == c2
  {
    if ReviewId(c1) == ReviewId(c2) {
      var p := "review-";
      assert Text.Decimal(c1) == ReviewId(c1)[|p|..];
      assert Text.Decimal(c2) == ReviewId(c2)[|p|..];
      Text.DecimalInjective(c1, c2);
    }
  }

  /** The result of `addReview`: the new state and the review it stored. */
  datatype Posted = Posted(state: State, review: Review)

  /**
   * `addReview(draft)`: store the draft with a clock-derived id, the current
   * user, the creation time and no helpful votes; push the reviews, then
   * recompute the game's rating and push the games.
   */
  function AddReview(s: State, d: ReviewDraft, clock: int, createdAt: Time): (p: Posted)
    ensures p.review == Review(ReviewId(clock), d.gameId, CurrentUserId, d.userName, d.userAvatar,
                               d.rating, d.title, d.content, createdAt, d.updatedAt, 0)
    ensures p.state.reviews == s.reviews + [p.review]
    ensures p.state.statuses == s.statuses
    ensures p.state.trace == s.trace + [ReviewsNext(p.state.reviews), GamesNext(p.state.games)]
    ensures InSync(p.state)
    ensures Consistent(p.state.games, p.state.reviews, d.gameId)
    ensures |p.state.games| == |s.games|
    ensures forall i :: 0 <= i < |s.games| && s.games[i].id != d.gameId ==> p.state.games[i] == s.games[i]
    ensures forall i :: 0 <= i < |s.games| ==> SameButAggregate(p.state.games[i], s.games[i])
  {
    var review := Review(ReviewId(clock), d.gameId, CurrentUserId, d.userName, d.userAvatar,
                         d.rating, d.title, d.content, createdAt, d.updatedAt, 0);
    var reviews := s.reviews + [review];
    var s1 := s.(reviews := reviews, reviewsSubject := reviews, trace := s.trace + [ReviewsNext(reviews)]);
    ReviewsForAppend(s.reviews, review, d.gameId);
    Posted(UpdateGameRating(s1, d.gameId), review)
  }

  /** Adding a review for one game leaves every other game's aggregate as consistent as it was. */
  lemma AddReviewKeepsOthers(s: State, d: ReviewDraft, clock: int, createdAt: Time, gameId: string)
    requires gameId != d.gameId
    requires Consistent(s.games, s.reviews, gameId)
    ensures Consistent(AddReview(s, d, clock, createdAt).state.games, AddReview(s, d, clock, createdAt).state.reviews, gameId)
  {
    var p := AddReview(s, d, clock, createdAt);
    ReviewsForAppend(s.reviews, p.review, gameId);
    assert ReviewsFor(p.state.reviews, gameId) == ReviewsFor(s.reviews, gameId);
    assert ExpectedTenths(p.state.reviews, gameId) == ExpectedTenths(s.reviews, gameId);
    forall i | 0 <= i < |p.state.games| && p.state.games[i].id == gameId
      ensures p.state.games[i] == s.games[i]
    {
    }
  }

  /**
   * A status update is visible to the next statuses read, as the first
   * entry for its game, and leaves the games and reviews reads as they were.
   */
  lemma ReadsAfterStatusUpdate(s: State, d: StatusDraft, gameId: string)
    ensures Find(GetUserGameStatuses(UpdateGameStatus(s, d)), (x: GameStatus) => x.gameId == d.gameId) == Some(EntryOf(d))
    ensures GetGames(UpdateGameStatus(s, d)) == GetGames(s)
    ensures GetReviewsForGame(UpdateGameStatus(s, d), gameId) == GetReviewsForGame(s, gameId)
  {
    UpsertThenFirst(s.statuses, EntryOf(d));
  }

  /** Adding a review leaves the statuses read as it was and the catalogue as long as it was. */
  lemma ReadsAfterReview(s: State, d: ReviewDraft, clock: int, createdAt: Time)
    ensures GetUserGameStatuses(AddReview(s, d, clock, createdAt).state) == GetUserGameStatuses(s)
    ensures |GetGames(AddReview(s, d, clock, createdAt).state)| == |GetGames(s)|
  {
  }

  // -------------------------------------------------------------- sessions

  /** One call into the store's command surface. */
  datatype Command =
    | SetStatus(draft: StatusDraft)
    | PostReview(review: ReviewDraft, clock: int, createdAt: Time)

  function Step(s: State, c: Command): State {
    match c
    case SetStatus(d) => UpdateGameStatus(s, d)
    case PostReview(d, clock, createdAt) => AddReview(s, d, clock, createdAt).state
  }

  /** The state after running the commands in order. */
  function Run(s: State, cmds: seq<Command>): State
    decreases |cmds|
  {
    if |cmds| == 0 then s else Run(Step(s, cmds[0]), cmds[1..])
  }

  /** A session of status updates only leaves the catalogue read as it was. */
  lemma {:induction false} CatalogueReadUnchangedByStatuses(s: State, cmds: seq<Command>)
    requires forall k :: 0 <= k < |cmds| ==> cmds[k].SetStatus?
    ensures GetGames(Run(s, cmds)) == GetGames(s)
    decreases |cmds|
  {
    if |cmds| > 0 {
      CatalogueReadUnchangedByStatuses(Step(s, cmds[0]), cmds[1..]);
    }
  }

  /** A session of added reviews only leaves the statuses read as it was. */
  lemma {:induction false} StatusesReadUnchangedByReviews(s: State, cmds: seq<Command>)
    requires forall k :: 0 <= k < |cmds| ==> cmds[k].PostReview?
    ensures GetUserGameStatuses(Run(s, cmds)) == GetUserGameStatuses(s)
    decreases |cmds|
  {
    if |cmds| > 0 {
      StatusesReadUnchangedByReviews(Step(s, cmds[0]), cmds[1..]);
    }
  }

  /** Some command in the session adds a review for this game. */
  ghost predicate Targets(cmds: seq<Command>, gameId: string) {
    exists k :: 0 <= k < |cmds| && cmds[k].PostReview? && cmds[k].review.gameId == gameId
  }

  function PostCount(cmds: seq<Command>): nat {
    if |cmds| == 0 then 0 else (if cmds[0].PostReview? then 1 else 0) + PostCount(cmds[1..])
  }

  /**
   * After any session, every game that some command reviewed shows the
   * exact aggregate of its reviews, and a game that already did still does.
   * Seeded aggregates that never get a review keep whatever they were.
   */
  lemma {:induction false} RunConsistent(s: State, cmds: seq<Command>, gameId: string)
    requires Consistent(s.games, s.reviews, gameId) || Targets(cmds, gameId)
    ensures Consistent(Run(s, cmds).games, Run(s, cmds).reviews, gameId)
    decreases |cmds|
  {
    if |cmds| > 0 {
      var s1 := Step(s, cmds[0]);
      match cmds[0] {
        case SetStatus(d) =>
        case PostReview(d, clock, createdAt) =>
          if d.gameId != gameId && Consistent(s.games, s.reviews, gameId) {
            AddReviewKeepsOthers(s, d, clock, createdAt, gameId);
          }
      }
      assert Consistent(s1.games, s1.reviews, gameId) || Targets(cmds[1..], gameId) by {
        if !Consistent(s1.games, s1.reviews, gameId) {
          var k :| 0 <= k < |cmds| && cmds[k].PostReview? && cmds[k].review.gameId == gameId;
          assert k != 0;
          assert cmds[1..][k - 1] == cmds[k];
        }
      }
      RunConsistent(s1, cmds[1..], gameId);
    }
  }

  /**
   * Pushes are only ever appended, two per added review (reviews, then
   * games) and none per status update; the subjects stay in step with the
   * signals.
   */
  lemma {:induction false} RunTrace(s: State, cmds: seq<Command>)
    requires InSync(s)
    ensures s.trace <= Run(s, cmds).trace
    ensures |Run(s, cmds).trace| == |s.trace| + 2 * PostCount(cmds)
    ensures InSync(Run(s, cmds))
    decreases |cmds|
  {
    if |cmds| > 0 {
      RunTrace(Step(s, cmds[0]), cmds[1..]);
    }
  }

  // ---------------------------------------------------------- subscriptions

  /** The snapshots pushed on the reviews subject, in push order. */
  function ReviewPushes(trace: seq<Notification>): (r: seq<seq<Review>>)
    ensures |r| <= |trace|
  {
    if |trace| == 0 then []
    else (if trace[0].ReviewsNext? then [trace[0].reviews] else []) + ReviewPushes(trace[1..])
  }

  lemma {:induction false} ReviewPushesAppend(a: seq<Notification>, b: seq<Notification>)
    ensures ReviewPushes(a + b) == ReviewPushes(a) + ReviewPushes(b)
  {
    if |a| == 0 {
      assert a + b == b;
    } else {
      var h: seq<seq<Review>> := if a[0].ReviewsNext? then [a[0].reviews] else [];
      ReviewPushesAppend(a[1..], b);
      assert (a + b)[0] == a[0];
      assert (a + b)[1..] == a[1..] + b;
      assert ReviewPushes(a + b) == h + ReviewPushes(a[1..] + b);
      assert ReviewPushes(a) == h + ReviewPushes(a[1..]);
    }
  }

  /** One command appends its pushes to the trace: one reviews snapshot, the new reviews, per added review. */
  lemma StepPushes(s: State, c: Command)
    ensures s.trace <= Step(s, c).trace
    ensures ReviewPushes(Step(s, c).trace[|s.trace|..]) == (if c.PostReview? then [Step(s, c).reviews] else [])
  {
    var s1 := Step(s, c);
    var added := s1.trace[|s.trace|..];
    if c.PostReview? {
      assert added == [ReviewsNext(s1.reviews), GamesNext(s1.games)];
      assert added[1..][1..] == [];
    } else {
      assert added == [];
    }
  }

  /** The part of a trace added across two steps is the part added by the first, then by the second. */
  lemma SuffixSplit(a: seq<Notification>, b: seq<Notification>, c: seq<Notification>)
    requires a <= b <= c
    ensures c[|a|..] == b[|a|..] + c[|b|..]
  {
  }

  /** A session pushes one reviews snapshot per added review. */
  lemma {:induction false} RunPushCount(s: State, cmds: seq<Command>)
    requires InSync(s)
    ensures s.trace <= Run(s, cmds).trace
    ensures |ReviewPushes(Run(s, cmds).trace[|s.trace|..])| == PostCount(cmds)
    decreases |cmds|
  {
    RunTrace(s, cmds);
    if |cmds| > 0 {
      var s1 := Step(s, cmds[0]);
      var end := Run(s1, cmds[1..]);
      StepPushes(s, cmds[0]);
      RunPushCount(s1, cmds[1..]);
      SuffixSplit(s.trace, s1.trace, end.trace);
      ReviewPushesAppend(s1.trace[|s.trace|..], end.trace[|s1.trace|..]);
    }
  }

  /**
   * The last reviews snapshot a session pushes is the final reviews
   * collection; a session that pushes none leaves the reviews as they were.
   */
  lemma {:induction false} RunLastPush(s: State, cmds: seq<Command>)
    requires InSync(s)
    ensures s.trace <= Run(s, cmds).trace
    ensures var pushes := ReviewPushes(Run(s, cmds).trace[|s.trace|..]);
            && (|pushes| == 0 ==> Run(s, cmds).reviews == s.reviews)
            && (|pushes| > 0 ==> pushes[|pushes| - 1] == Run(s, cmds).reviews)
    decreases |cmds|
  {
    RunTrace(s, cmds);
    if |cmds| > 0 {
      var s1 := Step(s, cmds[0]);
      var end := Run(s1, cmds[1..]);
      StepPushes(s, cmds[0]);
      RunLastPush(s1, cmds[1..]);
      SuffixSplit(s.trace, s1.trace, end.trace);
      ReviewPushesAppend(s1.trace[|s.trace|..], end.trace[|s1.trace|..]);
    }
  }

  /**
   * What a subscriber to `getReviewsForGame(id)` has received by state
   * `now`, having subscribed in state `start`: the subject's value at
   * subscription time, then one value per later push, each filtered to the
   * game.
   */
  function ReviewFeed(start: State, now: State, gameId: string): (r: seq<seq<Review>>)
    requires start.trace <= now.trace
    ensures |r| >= 1
  {
    var pushes := ReviewPushes(now.trace[|start.trace|..]);
    [ReviewsFor(start.reviewsSubject, gameId)]
      + seq(|pushes|, i requires 0 <= i < |pushes| => ReviewsFor(pushes[i], gameId))
  }

  /**
   * A subscription open across a session receives exactly one value more
   * than the session added reviews, and the latest value it received is the
   * game's current reviews.
   */
  lemma FeedAfterSession(start: State, cmds: seq<Command>, gameId: string)
    requires InSync(start)
    ensures start.trace <= Run(start, cmds).trace
    ensures var feed := ReviewFeed(start, Run(start, cmds), gameId);
            && |feed| == 1 + PostCount(cmds)
            && feed[|feed| - 1] == ReviewsFor(Run(start, cmds).reviews, gameId)
  {
    var end := Run(start, cmds);
    RunPushCount(start, cmds);
    RunLastPush(start, cmds);
    var pushes := ReviewPushes(end.trace[|start.trace|..]);
    var feed := ReviewFeed(start, end, gameId);
    assert |feed| == 1 + |pushes|;
    if |pushes| == 0 {
      assert feed[0] == ReviewsFor(start.reviewsSubject, gameId);
    } else {
      assert feed[|feed| - 1] == ReviewsFor(pushes[|pushes| - 1], gameId);
    }
  }
}
