/** The entities of the game tracker: games, a user's status entries, reviews. */
module Model {
  import opened Wrappers

  /** A `Date`, as the milliseconds since the Unix epoch that `getTime()` returns. */
  type Time = int

  /** A star rating: the literal type `0 | 1 | 2 | 3 | 4 | 5`. */
  type Rating = r: int | 0 <= r <= 5

  /** The four library states a game can be in. */
  datatype Status = Playing | Completed | Wishlist | Dropped

  /**
   * A catalog entry. `averageTenths` is `averageRating` held exactly in
   * tenths (4.5 is 45): the store only ever writes values rounded to one
   * decimal.
   */
  datatype Game = Game(
    id: string,
    title: string,
    developer: string,
    publisher: string,
    releaseDate: Time,
    genre: seq<string>,
    platform: seq<string>,
    coverImage: string,
    description: string,
    averageTenths: int,
    totalReviews: int)

  /** The current user's entry for one game; the `?` fields of the source are `Option`s. */
  datatype GameStatus = GameStatus(
    gameId: string,
    userId: string,
    status: Status,
    hoursPlayed: Option<int>,
    lastPlayed: Option<Time>,
    addedDate: Time)

  /** A review; only `userAvatar` and `updatedAt` may be absent. */
  datatype Review = Review(
    id: string,
    gameId: string,
    userId: string,
    userName: string,
    userAvatar: Option<string>,
    rating: Rating,
    title: string,
    content: string,
    createdAt: Time,
    updatedAt: Option<Time>,
    helpfulCount: int)

  /** The string each status is spelled as in the source. */
  function StatusName(s: Status): string {
    match s
    case Playing => "playing"
    case Completed => "completed"
    case Wishlist => "wishlist"
    case Dropped => "dropped"
  }

  /** The status a string spells, if it is one of the four literals. */
  function ParseStatus(name: string): (r: Option<Status>)
    ensures r.Some? ==> StatusName(r.value) == name
    ensures r.None? ==> forall s: Status :: StatusName(s) != name
  {
    if name == "playing" then Some(Playing)
    else if name == "completed" then Some(Completed)
    else if name == "wishlist" then Some(Wishlist)
    else if name == "dropped" then Some(Dropped)
    else None
  }

  /** Spelling a status and reading it back gives the same status. */
  lemma ParseStatusName(s: Status)
    ensures ParseStatus(StatusName(s)) == Some(s)
  {
  }
}
