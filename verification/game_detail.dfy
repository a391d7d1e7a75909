/**
 * The game detail page (`GameDetailComponent`): what it loads, the status
 * draft it sends to the store, and its presentational lookups.
 */
module GameDetail {
  import opened Wrappers
  import opened Model
  import opened Seqs
  import Store
  import opened Stars

  /** The page's own signals. */
  datatype Page = Page(game: Option<Game>, reviews: seq<Review>, gameStatus: Option<GameStatus>, showReviewForm: bool)

  /** The status lookup of `ngOnInit`: the first entry for the game, or none. */
  function LoadedStatus(statuses: seq<GameStatus>, id: string): (r: Option<GameStatus>)
    ensures r.None? <==> forall i :: 0 <= i < |statuses| ==> statuses[i].gameId != id
    ensures r.Some? ==> exists i :: Store.FirstFor(statuses, id, i) && statuses[i] == r.value
  {
    Find(statuses, (x: GameStatus) => x.gameId == id)
  }

  /**
   * `ngOnInit` for route id `id`: the game and the status entry, each read
   * from the snapshot taken when the page asked. (With no such game the
   * page navigates away; the game stays unset.)
   */
  function Open(s: Store.State, id: string): (p: Page)
    ensures p.game.None? <==> forall i :: 0 <= i < |s.games| ==> s.games[i].id != id
    ensures p.game.Some? ==> exists i :: 0 <= i < |s.games| && s.games[i] == p.game.value && p.game.value.id == id
                                         && forall j :: 0 <= j < i ==> s.games[j].id != id
    ensures p.gameStatus.None? <==> forall i :: 0 <= i < |s.statuses| ==> s.statuses[i].gameId != id
    ensures p.gameStatus.Some? ==> exists i :: Store.FirstFor(s.statuses, id, i) && s.statuses[i] == p.gameStatus.value
    ensures forall k :: 0 <= k < |p.reviews| ==> p.reviews[k].gameId == id && p.reviews[k] in s.reviewsSubject
    ensures forall k :: 0 <= k < |s.reviewsSubject| && s.reviewsSubject[k].gameId == id ==> s.reviewsSubject[k] in p.reviews
    ensures !p.showReviewForm
  {
    Page(Store.GetGameById(s, id), Store.GetReviewsForGame(s, id), LoadedStatus(Store.GetUserGameStatuses(s), id), false)
  }

  /** `toggleReviewForm()`. */
  function ToggleReviewForm(p: Page): (r: Page)
    ensures r.showReviewForm != p.showReviewForm
    ensures r.(showReviewForm := p.showReviewForm) == p
  {
    p.(showReviewForm := !p.showReviewForm)
  }

  /**
   * `onReviewSubmitted()`: hide the form, reload the game's reviews and the
   * game itself (keeping the old game if it has vanished).
   */
  function OnReviewSubmitted(p: Page, s: Store.State, id: string): (r: Page)
    ensures !r.showReviewForm && r.gameStatus == p.gameStatus
    ensures r.reviews == Store.GetReviewsForGame(s, id)
    ensures Store.GetGameById(s, id).Some? ==> r.game == Store.GetGameById(s, id)
    ensures Store.GetGameById(s, id).None? ==> r.game == p.game
  {
    var game := Store.GetGameById(s, id);
    p.(showReviewForm := false, reviews := Store.GetReviewsForGame(s, id),
       game := if game.Some? then game else p.game)
  }

  /**
   * Posting a review for a catalogued game and reloading the page shows the
   * new review last, and a game whose count and mean are those of the
   * reviews on the page.
   */
  lemma ReloadAfterReview(p: Page, s: Store.State, d: Store.ReviewDraft, clock: int, createdAt: Time)
    requires Store.GetGameById(s, d.gameId).Some?
    ensures var posted := Store.AddReview(s, d, clock, createdAt);
            var r := OnReviewSubmitted(p, posted.state, d.gameId);
            && |r.reviews| > 0 && r.reviews[|r.reviews| - 1] == posted.review
            && r.game.Some? && r.game.value.id == d.gameId
            && r.game.value.totalReviews == |r.reviews|
            && r.game.value.averageTenths == Store.MeanTenths(r.reviews)
  {
    var posted := Store.AddReview(s, d, clock, createdAt);
    Store.ReviewsForAppend(s.reviews, posted.review, d.gameId);
    var g := Store.GetGameById(posted.state, d.gameId);
    assert g.Some? by {
      var i :| 0 <= i < |s.games| && s.games[i].id == d.gameId;
      assert Store.SameButAggregate(posted.state.games[i], s.games[i]);
    }
  }

  /**
   * The argument `updateGameStatus(status)` passes to the store, or none
   * when no game is loaded. The source reads the clock separately for the
   * two dates: `addedNow` is the reading for `addedDate`, `playedNow` the
   * one for `lastPlayed`. The draft keeps the loaded entry's `addedDate`
   * (else `addedNow`) and `hoursPlayed`, and sets `lastPlayed` to
   * `playedNow` when the new status is playing, otherwise keeping the
   * loaded one.
   */
  function StatusDraftFor(page: Page, status: Status, addedNow: Time, playedNow: Time): (r: Option<Store.StatusDraft>)
    ensures r.None? <==> page.game.None?
    ensures r.Some? ==> r.value.gameId == page.game.value.id && r.value.status == status
    ensures r.Some? && page.gameStatus.Some? ==> r.value.addedDate == page.gameStatus.value.addedDate
    ensures r.Some? && page.gameStatus.None? ==> r.value.addedDate == addedNow
    ensures r.Some? && page.gameStatus.Some? ==> r.value.hoursPlayed == page.gameStatus.value.hoursPlayed
    ensures r.Some? && page.gameStatus.None? ==> r.value.hoursPlayed.None?
    ensures r.Some? && status == Playing ==> r.value.lastPlayed == Some(playedNow)
    ensures r.Some? && status != Playing && page.gameStatus.Some? ==> r.value.lastPlayed == page.gameStatus.value.lastPlayed
    ensures r.Some? && status != Playing && page.gameStatus.None? ==> r.value.lastPlayed.None?
  {
    match page.game
    case None => None
    case Some(game) =>
      var current := page.gameStatus;
      Some(Store.StatusDraft(
        game.id,
        status,
        if current.Some? then current.value.hoursPlayed else None,
        if status == Playing then Some(playedNow) else if current.Some? then current.value.lastPlayed else None,
        if current.Some? then current.value.addedDate else addedNow))
  }

  /** The page and the store after a status button is pressed. */
  datatype Detail = Detail(page: Page, store: Store.State)

  /**
   * `updateGameStatus(status)`: send the draft, then reload the page's
   * status from the statuses snapshot taken right after the update.
   */
  function UpdateGameStatus(page: Page, s: Store.State, status: Status, addedNow: Time, playedNow: Time): (r: Detail)
    ensures page.game.None? ==> r == Detail(page, s)
    ensures page.game.Some? ==>
              var d := StatusDraftFor(page, status, addedNow, playedNow).value;
              && r.store == Store.UpdateGameStatus(s, d)
              && r.page == page.(gameStatus := Some(Store.EntryOf(d)))
  {
    match StatusDraftFor(page, status, addedNow, playedNow)
    case None => Detail(page, s)
    case Some(d) =>
      var s' := Store.UpdateGameStatus(s, d);
      Store.UpsertThenFirst(s.statuses, Store.EntryOf(d));
      Detail(page.(gameStatus := LoadedStatus(Store.GetUserGameStatuses(s'), page.game.value.id)), s')
  }

  /**
   * Marking a game as playing and then as dropped through the page keeps the
   * `lastPlayed` and `addedDate` of the first press: the page carries the
   * loaded entry forward, although the store itself replaces entries
   * wholesale.
   */
  lemma PlayThenDrop(game: Game, reviews: seq<Review>, s: Store.State, added1: Time, played1: Time, added2: Time, played2: Time)
    ensures var first := UpdateGameStatus(Page(Some(game), reviews, None, false), s, Playing, added1, played1);
            var second := UpdateGameStatus(first.page, first.store, Dropped, added2, played2);
            second.page.gameStatus == Some(GameStatus(game.id, Store.CurrentUserId, Dropped, None, Some(played1), added1))
  {
  }

  // ------------------------------------------------------------------ stars

  /**
   * `getRatingStars(averageRating)` for a rating of `tenths / 10`: full
   * stars for the whole part, a half star when the fraction is at least
   * one half, empty stars for the rest. The source builds the arrays with
   * `Array(n)`, which throws for a negative `n`; that is `None` here.
   */
  function RatingStars(tenths: int): (r: Option<seq<string>>)
    ensures r.Some? <==> 0 <= tenths <= 54
    ensures r.Some? ==> |r.value| == 5
    ensures r.Some? ==> forall k :: 0 <= k < 5 ==>
              (r.value[k] == Star <==> k < tenths / 10)
              && (r.value[k] == HalfStar <==> k == tenths / 10 && tenths % 10 >= 5)
              && (r.value[k] == EmptyStar <==> k >= tenths / 10 + (if tenths % 10 >= 5 then 1 else 0))
  {
    if tenths < 0 then None
    else
      var full := tenths / 10;
      var half := tenths % 10 >= 5;
      var empty := 5 - full - (if half then 1 else 0);
      if empty < 0 then None
      else Some(Repeat(Star, full) + (if half then [HalfStar] else []) + Repeat(EmptyStar, empty))
  }

  /**
   * For every rating the store can hold, the stars show it rounded down to
   * the nearest half star.
   */
  lemma RatingStarsShowHalfStars(tenths: int)
    requires 0 <= tenths <= 50
    ensures RatingStars(tenths).Some?
    ensures HalfStars(RatingStars(tenths).value) == tenths / 5
  {
    var full := tenths / 10;
    var half := tenths % 10 >= 5;
    var empty := 5 - full - (if half then 1 else 0);
    var a := Repeat(Star, full);
    var b: seq<string> := if half then [HalfStar] else [];
    var c := Repeat(EmptyStar, empty);
    HalfStarsRepeat(Star, full);
    HalfStarsRepeat(EmptyStar, empty);
    HalfStarsAppend(a, b);
    HalfStarsAppend(a + b, c);
    if half {
      assert b[1..] == [];
    }
  }

  // ----------------------------------------------------------- status text

  function IconOf(s: Status): string {
    match s
    case Playing => "play_circle"
    case Completed => "check_circle"
    case Wishlist => "favorite"
    case Dropped => "cancel"
  }

  function LabelOf(s: Status): string {
    match s
    case Playing => "Playing"
    case Completed => "Completed"
    case Wishlist => "Wishlist"
    case Dropped => "Dropped"
  }

  /** Distinct statuses show distinct icons and labels. */
  lemma StatusTextInjective(a: Status, b: Status)
    requires IconOf(a) == IconOf(b) || LabelOf(a) == LabelOf(b)
    ensures a == b
  {
  }

  /**
   * `getStatusIcon(status)` as intended: the icon of one of the four
   * statuses, `'add'` for every other string.
   */
  function StatusIcon(status: string): (r: string)
    ensures ParseStatus(status).Some? ==> r == IconOf(ParseStatus(status).value)
    ensures r == "add" <==> ParseStatus(status).None?
  {
    match ParseStatus(status)
    case Some(s) => IconOf(s)
    case None => "add"
  }

  /**
   * `getStatusLabel(status)` as intended: the label of one of the four
   * statuses, `'Add to Library'` for every other string.
   */
  function StatusLabel(status: string): (r: string)
    ensures ParseStatus(status).Some? ==> r == LabelOf(ParseStatus(status).value)
    ensures r == "Add to Library" <==> ParseStatus(status).None?
  {
    match ParseStatus(status)
    case Some(s) => LabelOf(s)
    case None => "Add to Library"
  }

  /**
   * The property names every object literal inherits from
   * `Object.prototype`; reading one from `icons` or `labels` yields a
   * function (or, for `__proto__`, an object), which is truthy.
   */
  predicate IsPrototypeName(name: string) {
    name in ["constructor", "hasOwnProperty", "isPrototypeOf", "propertyIsEnumerable",
             "toLocaleString", "toString", "valueOf", "__proto__",
             "__defineGetter__", "__defineSetter__", "__lookupGetter__", "__lookupSetter__"]
  }

  /**
   * What `record[status] || fallback` evaluates to: a string (the record's
   * own value or the fallback), or a member inherited from the prototype.
   */
  datatype Lookup = Own(text: string) | Inherited(name: string)

  /** `getStatusIcon` as written: `icons[status] || 'add'` on a plain object literal. */
  function StatusIconAsWritten(status: string): (r: Lookup)
    ensures r.Inherited? <==> IsPrototypeName(status)
    ensures r.Own? ==> r.text == StatusIcon(status)
  {
    match ParseStatus(status)
    case Some(s) => Own(IconOf(s))
    case None => if IsPrototypeName(status) then Inherited(status) else Own("add")
  }

  /** `getStatusLabel` as written: `labels[status] || 'Add to Library'`. */
  function StatusLabelAsWritten(status: string): (r: Lookup)
    ensures r.Inherited? <==> IsPrototypeName(status)
    ensures r.Own? ==> r.text == StatusLabel(status)
  {
    match ParseStatus(status)
    case Some(s) => Own(LabelOf(s))
    case None => if IsPrototypeName(status) then Inherited(status) else Own("Add to Library")
  }

  /**
   * `getStatusIcon('constructor')` returns the `Object` constructor rather
   * than a string, and `getStatusLabel('toString')` a function: the
   * declared `string` result and the `'add'` fallback do not hold there.
   */
  lemma InheritedNamesEscapeFallback()
    ensures StatusIconAsWritten("constructor") == Inherited("constructor")
    ensures StatusIcon("constructor") == "add"
    ensures StatusLabelAsWritten("toString") == Inherited("toString")
    ensures StatusLabel("toString") == "Add to Library"
  {
    assert IsPrototypeName("constructor");
    assert IsPrototypeName("toString");
  }
}
