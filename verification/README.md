# Game tracker store and pages, in Dafny

A model of the game tracker's in-memory store (`GameService`) and of the pure
logic of the pages built on it.

The store holds three collections: the game catalogue, the current user's
status entries, and reviews. It offers two commands:

- upsert a status entry, keyed by game;
- append a review, which also recomputes that game's rating aggregate
  (the recomputation is private to the store).

It also offers snapshot reads, and two `BehaviorSubject`s that push the
review and game collections.

The store is an immutable `Store.State`. Each command is a pure function that
returns the next state. Every subject push is appended to a notification
`trace`, so subscriptions are stated over that trace (`Store.ReviewFeed`).
Ratings are held exactly, in tenths (`averageRating` 4.5 is `averageTenths`
45). The store's `Math.round(mean * 10) / 10` becomes the integer
`(20·sum + n) / (2n)`.

Around the store sit the page logic:

- the detail page: the status draft it builds, the review reload, star
  icons, and status icon and label lookups;
- the catalogue page: search, genre filter, three sort orders, and the
  genre list;
- the library page: the entries grouped by status and joined with their
  games;
- the review list: newest first, review stars, and the "time since"
  caption;
- the review form: the star picker, the validity rule, and the
  submit / reset / error protocol.

Modules follow the source files:

| module | file | models |
|---|---|---|
| `Model` | `model.dfy` | `game.model.ts` |
| `Store` | `store.dfy` | `game.service.ts`, without the mock data |
| `MockData` | `mock_data.dfy` | the mock data of `game.service.ts` |
| `Scenarios` | `scenarios.dfy` | concrete facts about the seeded store |
| `GameDetail` | `game_detail.dfy` | `game-detail.component.ts` |
| `GameList` | `game_list.dfy` | `game-list.component.ts` |
| `MyLibrary` | `my_library.dfy` | `my-library.component.ts` |
| `ReviewList` | `review_list.dfy` | `review-list.component.ts` |
| `ReviewForm` | `review_form.dfy` | `review-form.component.ts` |

These modules rest on shared ones:

- `Seqs`: `filter`, `find`, `findIndex`.
- `Sorting`: `Array.prototype.sort` with a comparator, as a stable
  insertion sort over a total preorder.
- `Text`: `trim`, `length` in UTF-16 units, `toLowerCase`, `includes`, the
  default string sort order, and integer rendering.
- `Stars`: the star icon names, and the rating a row of icons shows.
- `Wrappers`: `Option`.

Clock readings (`Date.now()`, `new Date()`) are parameters, as epoch
milliseconds. `localeCompare` is a parameter `collate`, required to be a
total preorder.

Some facts about the code that the model keeps:

- Status entries are keyed by `gameId` alone, not by game and user.
- `getUserGameStatuses` returns every entry, with no per-user filter.
- A review id is `review-` plus the clock reading, so two reviews added in
  the same millisecond share an id.
- Games 1 and 2 are seeded with aggregates their reviews do not give;
  games 3–6 match.

## Model

| member | source | states |
|---|---|---|
| Model.ParseStatus | src/app/core/models/game.model.ts:18 | a string parses to a status exactly when it is one of the four literals, and then spells that status |
| Model.ParseStatusName | src/app/core/models/game.model.ts:18 | spelling a status and parsing it back gives the same status |
| Stars.Repeat | src/app/features/games/pages/game-detail/game-detail.component.ts:74-78 | `Array(n).fill(icon)` has length n and holds only that icon |
| Text.Trim | src/app/features/reviews/components/review-form/review-form.component.ts:62-63 | the trimmed string is a slice whose removed ends are all whitespace and whose own ends are not whitespace |
| Text.TrimEmptyIffBlank | src/app/features/reviews/components/review-form/review-form.component.ts:62 | trimming gives the empty string if and only if the string is all whitespace |
| Text.TrimIdempotent | src/app/features/reviews/components/review-form/review-form.component.ts:78-79 | trimming an already trimmed text changes nothing |
| Text.Utf16Length | src/app/features/reviews/components/review-form/review-form.component.ts:62-63 | `length` counts UTF-16 units: between one and two per character; exactly one per character if and only if every character is in the Basic Multilingual Plane, and two per character if and only if none is |
| Text.Utf16LengthAppend | src/app/features/reviews/components/review-form/review-form.component.ts:62-63 | the UTF-16 length of a concatenation is the sum of the lengths |
| Text.ToLower | src/app/features/games/pages/game-list/game-list.component.ts:43-49 | lower-casing keeps the length, leaves no capital letter, keeps every other character, and maps each capital to the small letter at the same place in the alphabet |
| Text.ToLowerIdempotent | src/app/features/games/pages/game-list/game-list.component.ts:43-49 | lower-casing a lower-cased string changes nothing |
| Text.Contains | src/app/features/games/pages/game-list/game-list.component.ts:46-48 | the empty term occurs in every text, and a term that occurs is no longer than the text |
| Text.StringLeTotal | src/app/features/games/pages/game-list/game-list.component.ts:81 | any two strings are comparable in the default sort order |
| Text.StringLeTransitive | src/app/features/games/pages/game-list/game-list.component.ts:81 | the default string order is transitive |
| Text.StringLeAntisymmetric | src/app/features/games/pages/game-list/game-list.component.ts:81 | two strings that each sort no later than the other are equal |
| Text.NatDigits | src/app/core/services/game.service.ts:78 | a natural renders as decimal digits without a leading zero |
| Text.Decimal | src/app/core/services/game.service.ts:78 | an integer renders with a leading minus exactly when it is negative, and otherwise with digits only |
| Text.ParseNatDigits | src/app/core/services/game.service.ts:78 | reading the rendered digits back gives the number |
| Text.NatDigitsInjective | src/app/core/services/game.service.ts:78 | distinct naturals render differently |
| Text.DecimalInjective | src/app/core/services/game.service.ts:78 | distinct integers render differently |
| Seqs.Filter | src/app/core/services/game.service.ts:51 | a filter never grows its input |
| Seqs.FilterSpec | src/app/core/services/game.service.ts:51 | a filter keeps exactly the elements that satisfy the predicate, none more often than in the input |
| Seqs.FilterAppend | src/app/core/services/game.service.ts:95 | filtering distributes over concatenation, so storage order is kept |
| Seqs.FilterFilter | src/app/features/games/pages/game-list/game-list.component.ts:45-56 | two filters in a row equal one filter by the conjunction |
| Seqs.FirstIndex | src/app/core/services/game.service.ts:63 | `findIndex` gives the first index that matches, or -1 exactly when none does |
| Seqs.Find | src/app/core/services/game.service.ts:39 | `find` gives the first element that matches, or nothing exactly when none does |
| Sorting.Insert | src/app/features/games/pages/game-list/game-list.component.ts:60 | insertion adds exactly the one element |
| Sorting.SortBy | src/app/features/games/pages/game-list/game-list.component.ts:60 | the sorted copy is a permutation of the input |
| Sorting.InsertSorted | src/app/features/games/pages/game-list/game-list.component.ts:60-71 | inserting into a sorted sequence keeps it sorted |
| Sorting.SortBySorted | src/app/features/games/pages/game-list/game-list.component.ts:60-71 | the result is sorted for any total preorder |
| Sorting.InsertStable | src/app/features/games/pages/game-list/game-list.component.ts:60-71 | an inserted element lands after every element tied with it |
| Sorting.SortByStable | src/app/features/games/pages/game-list/game-list.component.ts:60-71 | the sort is stable: tied elements keep their input order |
| Store.GameWithId | src/app/core/services/game.service.ts:39 | gives the first game with the id, or nothing exactly when no game has it |
| Store.CatalogueReadUnchangedByStatuses | src/app/core/services/game.service.ts:31-33 | over any session of status updates only, `getGames` reads the same catalogue at the end as at the start |
| Store.StatusesReadUnchangedByReviews | src/app/core/services/game.service.ts:43-45 | over any session of added reviews only, `getUserGameStatuses` reads the same entries, in the same order, at the end as at the start |
| Store.ReadsAfterStatusUpdate | src/app/core/services/game.service.ts:43-72 | after a status update, the statuses read finds the new entry first for its game, and the games and reviews reads are as before |
| Store.ReadsAfterReview | src/app/core/services/game.service.ts:43-91 | adding a review leaves the statuses read as it was and the catalogue as long as it was |
| Store.GetGameById | src/app/core/services/game.service.ts:37-41 | `getGameById` gives the first game in the snapshot with that id, or nothing exactly when there is none |
| Store.ReviewsFor | src/app/core/services/game.service.ts:51 | holds only reviews of the game that are stored, and every stored review of the game |
| Store.ReviewsForAppend | src/app/core/services/game.service.ts:84 | appending a review adds it at the end of its own game's list and to no other list |
| Store.ReviewsForPrefix | src/app/core/services/game.service.ts:51 | when a game's reviews are exactly the first k stored, they are its list |
| Store.ReviewsForSlice | src/app/core/services/game.service.ts:51 | when a game's reviews are exactly those stored at positions i to j, they are its list, in that order |
| Store.GetReviewsForGame | src/app/core/services/game.service.ts:49-53 | a new subscriber first gets exactly the game's reviews from the subject's current value |
| Store.EntryOf | src/app/core/services/game.service.ts:57-60 | a stored entry always carries the current user's id |
| Store.UpsertStatus | src/app/core/services/game.service.ts:62-71 | if the game has an entry, the first one is replaced wholesale, the length is kept and every other position is unchanged; otherwise the entry is appended after the unchanged list |
| Store.UpsertThenFirst | src/app/core/services/game.service.ts:62-71 | after an upsert, looking up the game finds the new entry |
| Store.UpsertIdempotent | src/app/core/services/game.service.ts:62-71 | upserting the same entry twice equals upserting it once |
| Store.UpsertKeepsUnique | src/app/core/services/game.service.ts:62-71 | if the list had at most one entry per game, it still does |
| Store.UpdateGameStatus | src/app/core/services/game.service.ts:56-72 | only the statuses change, by the upsert; nothing is pushed |
| Store.SumRatings | src/app/core/services/game.service.ts:96 | the sum of n ratings lies between 0 and 5n |
| Store.MeanTenths | src/app/core/services/game.service.ts:96-103 | the result is the integer nearest ten times the mean, halves rounded up, and lies in 0..50 |
| Store.RoundingBounds | src/app/core/services/game.service.ts:103 | the integer formula brackets ten times the mean within one half |
| Store.RecomputeRating | src/app/core/services/game.service.ts:98-109 | games with the id get the count and rounded mean of their reviews; every other game and field is unchanged; the length and order are kept |
| Store.RecomputeUnknownGame | src/app/core/services/game.service.ts:98-109 | recomputing for an id no game has leaves the games equal |
| Store.UpdateGameRating | src/app/core/services/game.service.ts:94-112 | the game's aggregate becomes consistent, the games are pushed once, and the statuses and reviews are unchanged |
| Store.ReviewId | src/app/core/services/game.service.ts:78 | an id starts with `review-`, followed by a minus sign exactly when the clock reading is negative |
| Store.ReviewIdCollision | src/app/core/services/game.service.ts:78 | two review ids are equal if and only if the clock readings are equal |
| Store.AddReview | src/app/core/services/game.service.ts:75-91 | exactly one review is appended, with the caller's fields, the current user, the clock id and no helpful votes; the reviews are pushed, then the games; the game's aggregate becomes consistent and other games are unchanged |
| Store.AddReviewKeepsOthers | src/app/core/services/game.service.ts:88 | a review for one game keeps every other game's aggregate as consistent as it was |
| Store.RunConsistent | src/app/core/services/game.service.ts:75-112 | after any command sequence, each game that some command reviewed, or that was already consistent, is consistent |
| Store.RunTrace | src/app/core/services/game.service.ts:85-111 | pushes are only appended, two per added review; the subjects stay equal to the signals |
| Store.StepPushes | src/app/core/services/game.service.ts:85 | one command pushes one review snapshot if it adds a review, and none otherwise |
| Store.RunPushCount | src/app/core/services/game.service.ts:85 | a session pushes one review snapshot per added review |
| Store.RunLastPush | src/app/core/services/game.service.ts:85 | the last review snapshot pushed is the final reviews; with no push, the reviews are unchanged |
| Store.ReviewFeed | src/app/core/services/game.service.ts:49-53 | a subscriber has always received at least the subject's value at subscription time |
| Store.FeedAfterSession | src/app/core/services/game.service.ts:49-53 | a subscription held across a session receives one value more than the number of added reviews; the latest value is the game's current reviews |
| Scenarios.InitialWith | src/app/core/services/game.service.ts:13-24 | signals and subjects start equal, with an empty trace and the mock statuses |
| Scenarios.Initial | src/app/core/services/game.service.ts:13-24 | the constructed service starts in step, with an empty trace, from `getMockGames()` and `getMockReviews()` |
| Scenarios.InitialGameOneInconsistent | src/app/core/services/game.service.ts:13-24 | the constructed service already shows game 1 with an aggregate its reviews do not give |
| Scenarios.SeedGameOneInconsistent | src/app/core/services/game.service.ts:115-128 | seeded game 1 (4.5 from 3) does not match its seeded reviews (4, 3, 4) |
| Scenarios.SeedGameTwoInconsistent | src/app/core/services/game.service.ts:130-141 | seeded game 2 (4.2 from 2) does not match its seeded reviews (2 and 3, lines 276 and 288) |
| Scenarios.SeedGameThreeConsistent | src/app/core/services/game.service.ts:143-154 | seeded game 3 (3.5 from 2) matches its seeded reviews (4 and 3) |
| Scenarios.SeedGameFourConsistent | src/app/core/services/game.service.ts:156-167 | seeded game 4 (4.0 from 1) matches its seeded review (4) |
| Scenarios.SeedGameFiveConsistent | src/app/core/services/game.service.ts:169-180 | seeded game 5 (4.0 from 1) matches its seeded review (4) |
| Scenarios.SeedGameSixConsistent | src/app/core/services/game.service.ts:182-193 | seeded game 6 (0 from 0) has no seeded reviews, as shown |
| Scenarios.SeedGameSixUnreviewed | src/app/core/services/game.service.ts:183-193 | seeded game 6 is the sixth game and has no reviews |
| Scenarios.MeanOfTwoSummingToSix | src/app/core/services/game.service.ts:96-103 | two ratings summing to 6 give 3.0 |
| Scenarios.TwoReviewsOnFreshGame | src/app/core/services/game.service.ts:94-104 | a game with no reviews that is rated 4 and then 2 shows 3.0 from 2 reviews |
| Scenarios.SeedGameSixFourThenTwo | src/app/core/services/game.service.ts:182-193 | in the seeded store, rating game 6 with 4 and then 2 shows 3.0 from 2 reviews |
| Scenarios.MissingGameIsAbsent | src/app/core/services/game.service.ts:37-41 | looking up an unknown id in the seeded store gives nothing |
| GameDetail.LoadedStatus | src/app/features/games/pages/game-detail/game-detail.component.ts:63-66 | the loaded status is the first entry for the route id, or nothing exactly when there is none |
| GameDetail.Open | src/app/features/games/pages/game-detail/game-detail.component.ts:45-67 | the loaded game is the first with the route id, or nothing exactly when none has it; the status is the first entry for the id, or nothing exactly when none exists; the reviews are exactly the pushed reviews of the id; the form starts hidden |
| GameDetail.ToggleReviewForm | src/app/features/games/pages/game-detail/game-detail.component.ts:100-102 | only the form's visibility flips |
| GameDetail.OnReviewSubmitted | src/app/features/games/pages/game-detail/game-detail.component.ts:104-118 | hides the form and reloads the reviews; reloads the game if it still exists and keeps the old one otherwise; the status is untouched |
| GameDetail.ReloadAfterReview | src/app/features/games/pages/game-detail/game-detail.component.ts:104-118 | after posting and reloading, the new review is last on the page, and the game's count and mean are those of the page's reviews |
| GameDetail.StatusDraftFor | src/app/features/games/pages/game-detail/game-detail.component.ts:81-91 | no draft without a game; the draft keeps the loaded `addedDate` (else the first clock reading, line 88) and `hoursPlayed`; `lastPlayed` is the second clock reading (line 90) when playing, else the loaded one |
| GameDetail.UpdateGameStatus | src/app/features/games/pages/game-detail/game-detail.component.ts:81-98 | with no game nothing happens; otherwise the store upserts the draft built from the two clock readings and the page shows the stored entry |
| GameDetail.PlayThenDrop | src/app/features/games/pages/game-detail/game-detail.component.ts:81-98 | playing then dropping keeps the first press's `lastPlayed` (its line-90 reading) and `addedDate` (its line-88 reading), whatever the second press's clock reads |
| GameDetail.RatingStars | src/app/features/games/pages/game-detail/game-detail.component.ts:69-79 | defined exactly for ratings 0.0 to 5.4; five icons, full stars for the whole part, a half star right after them if and only if the fraction is at least one half, and empty stars exactly at the places after those |
| GameDetail.RatingStarsShowHalfStars | src/app/features/games/pages/game-detail/game-detail.component.ts:69-79 | for ratings 0..5 the icons show the rating rounded down to a half star |
| GameDetail.StatusTextInjective | src/app/features/games/pages/game-detail/game-detail.component.ts:124-142 | distinct statuses have distinct icons and labels |
| GameDetail.StatusIcon | src/app/features/games/pages/game-detail/game-detail.component.ts:124-132 | a status name gives its icon; every other string, and only those, gives `add` |
| GameDetail.StatusLabel | src/app/features/games/pages/game-detail/game-detail.component.ts:134-142 | a status name gives its label; every other string, and only those, gives `Add to Library` |
| GameDetail.StatusIconAsWritten | src/app/features/games/pages/game-detail/game-detail.component.ts:124-132 | the lookup yields an inherited member exactly for `Object.prototype` names, and otherwise the intended icon |
| GameDetail.StatusLabelAsWritten | src/app/features/games/pages/game-detail/game-detail.component.ts:134-142 | the lookup yields an inherited member exactly for `Object.prototype` names, and otherwise the intended label |
| GameDetail.InheritedNamesEscapeFallback | src/app/features/games/pages/game-detail/game-detail.component.ts:124-142 | `constructor` and `toString` reach an inherited member, not the fallback text |
| GameList.MatchesSearch | src/app/features/games/pages/game-list/game-list.component.ts:45-49 | the empty term matches every game, and a match needs a title, developer or genre at least as long as the term |
| GameList.Shown | src/app/features/games/pages/game-list/game-list.component.ts:43-56 | with no term and `all` every game is shown; a shown game matches the lower-cased term and, unless `all`, has the chosen genre |
| GameList.Selected | src/app/features/games/pages/game-list/game-list.component.ts:43-56 | the two filter stages equal one filter by "shown" |
| GameList.SelectedIsOneFilter | src/app/features/games/pages/game-list/game-list.component.ts:43-56 | the search filter, skipped for an empty term, followed by the genre filter, skipped for `all`, is one filter |
| GameList.PrecedesTotalPreorder | src/app/features/games/pages/game-list/game-list.component.ts:59-71 | each sort key orders games consistently when the title collation does |
| GameList.Visible | src/app/features/games/pages/game-list/game-list.component.ts:39-74 | the listed games are a permutation of the filtered games |
| GameList.VisibleIsSortedSelection | src/app/features/games/pages/game-list/game-list.component.ts:39-74 | the list is sorted by the key (rating and release date non-increasing); it holds only shown catalogue games, and every shown game |
| GameList.VisibleMembers | src/app/features/games/pages/game-list/game-list.component.ts:43-56 | any reordering of the selection holds exactly the games that pass both filters |
| GameList.DefaultSortHighestRatedFirst | src/app/features/games/pages/game-list/game-list.component.ts:37-74 | the page opens sorted by rating, highest average first |
| GameList.UnfilteredShowsAll | src/app/features/games/pages/game-list/game-list.component.ts:43-56 | an empty search with `all` lists the whole catalogue, reordered |
| GameList.VisibleKeepsTiesInOrder | src/app/features/games/pages/game-list/game-list.component.ts:59-71 | games that tie under the key keep their catalogue order |
| GameList.GenresOf | src/app/features/games/pages/game-list/game-list.component.ts:77-80 | holds exactly the genres of some game |
| GameList.Dedup | src/app/features/games/pages/game-list/game-list.component.ts:77-81 | the `Set` keeps the same elements, each once |
| GameList.DistinctPermutation | src/app/features/games/pages/game-list/game-list.component.ts:81 | sorting a list without repeats keeps it without repeats |
| GameList.StringLeTotalPreorder | src/app/features/games/pages/game-list/game-list.component.ts:81 | the default string order is a total preorder |
| GameList.AllGenres | src/app/features/games/pages/game-list/game-list.component.ts:76-82 | holds a genre if and only if some game has it, in strictly ascending order, so each once |
| GameList.AllGenresStrict | src/app/features/games/pages/game-list/game-list.component.ts:81 | no genre of the menu sorts no later than an earlier one |
| MyLibrary.Join | src/app/features/games/pages/my-library/my-library.component.ts:45-47 | an entry is joined with the first game of its id, or is null exactly when there is none |
| MyLibrary.JoinAll | src/app/features/games/pages/my-library/my-library.component.ts:45-47 | the map joins each entry in place |
| MyLibrary.DropNulls | src/app/features/games/pages/my-library/my-library.component.ts:48 | dropping nulls never lengthens the list |
| MyLibrary.GamesByStatus | src/app/features/games/pages/my-library/my-library.component.ts:43-49 | a list is no longer than the status entries |
| MyLibrary.GamesByStatusCons | src/app/features/games/pages/my-library/my-library.component.ts:43-49 | one more entry in front adds its joined game in front when it has the status and a game, so the output follows storage order |
| MyLibrary.GamesByStatusCount | src/app/features/games/pages/my-library/my-library.component.ts:43-49 | a list has one element per entry with the status whose game exists |
| MyLibrary.GamesByStatusSound | src/app/features/games/pages/my-library/my-library.component.ts:43-49 | each element is a stored entry with the status, joined with the first game of its id |
| MyLibrary.GamesByStatusComplete | src/app/features/games/pages/my-library/my-library.component.ts:43-49 | every entry with the status whose game exists appears |
| MyLibrary.LibraryOf | src/app/features/games/pages/my-library/my-library.component.ts:32-35 | each of the four lists holds only entries of its own status |
| MyLibrary.LibraryPartition | src/app/features/games/pages/my-library/my-library.component.ts:32-35 | together the four lists hold as many entries as there are entries whose game exists |
| ReviewList.NewerFirstTotalPreorder | src/app/features/reviews/components/review-list/review-list.component.ts:25-27 | the newest-first comparator is a consistent order |
| ReviewList.SortedReviews | src/app/features/reviews/components/review-list/review-list.component.ts:24-28 | a permutation of the input with non-increasing `createdAt` |
| ReviewList.SortedReviewsStable | src/app/features/reviews/components/review-list/review-list.component.ts:24-28 | reviews created at the same instant keep their input order |
| ReviewList.ReviewStars | src/app/features/reviews/components/review-list/review-list.component.ts:30-38 | five icons: a full star exactly at the first `rating` places, an empty star exactly at the others, and never a half star |
| ReviewList.ReviewStarsShowRating | src/app/features/reviews/components/review-list/review-list.component.ts:30-38 | the icons show exactly the review's rating |
| ReviewList.DaysBetween | src/app/features/reviews/components/review-list/review-list.component.ts:42-43 | the day count is the floor of the elapsed time in days |
| ReviewList.Classify | src/app/features/reviews/components/review-list/review-list.component.ts:45-59 | each caption holds exactly on its day range; the count is the number of whole units and at least one for weeks, months and years |
| ReviewList.ClassifyMonotone | src/app/features/reviews/components/review-list/review-list.component.ts:45-59 | an older date never gets a more recent caption |
| ReviewList.UnitWord | src/app/features/reviews/components/review-list/review-list.component.ts:50-59 | the unit word is the unit's English name, with an `s` if and only if it is days or the count is not one |
| ReviewList.UnitWordInjective | src/app/features/reviews/components/review-list/review-list.component.ts:50-59 | distinct units never share a word |
| ReviewList.Render | src/app/features/reviews/components/review-list/review-list.component.ts:45-59 | `Today` and `Yesterday` exactly for their captions; otherwise the count, a space, the unit word for that count and ` ago` |
| ReviewList.RenderInjective | src/app/features/reviews/components/review-list/review-list.component.ts:45-59 | the text determines the caption: distinct captions read differently |
| ReviewList.CaptionText | src/app/features/reviews/components/review-list/review-list.component.ts:49-59 | for each day range, the caption is the count in that range's unit followed by the unit word, singular exactly for a count of one, and ` ago` |
| ReviewList.TimeSince | src/app/features/reviews/components/review-list/review-list.component.ts:40-61 | `Today` if and only if less than a day has passed; `Yesterday` if and only if one to two days have passed; `d days ago` for a day count d from 2 to 6 or negative (a future date); whole weeks, months (30 days) and years (365 days) beyond, singular for one |
| ReviewForm.SetRating | src/app/features/reviews/components/review-form/review-form.component.ts:43-45 | sets the chosen star and nothing else |
| ReviewForm.SetHoverRating | src/app/features/reviews/components/review-form/review-form.component.ts:47-49 | sets the hovered star and nothing else |
| ReviewForm.ClearHoverRating | src/app/features/reviews/components/review-form/review-form.component.ts:51-53 | clears the hover and nothing else |
| ReviewForm.ActiveRating | src/app/features/reviews/components/review-form/review-form.component.ts:56 | the hovered star when there is one, else the chosen one |
| ReviewForm.StarIcon | src/app/features/reviews/components/review-form/review-form.component.ts:55-58 | a star is full if and only if it is at most the active rating, and empty otherwise |
| ReviewForm.Picker | src/app/features/reviews/components/review-form/review-form.component.ts:41 | the picker shows the icons of stars 1 to 5 in order |
| ReviewForm.PickerShowsActiveRating | src/app/features/reviews/components/review-form/review-form.component.ts:55-58 | the picker lights exactly as many stars as the active rating |
| ReviewForm.IsFormValid | src/app/features/reviews/components/review-form/review-form.component.ts:60-64 | valid if and only if a star is picked, the title is not all whitespace, and the trimmed content has at least ten UTF-16 units, so at least five characters |
| ReviewForm.InitialForm | src/app/features/reviews/components/review-form/review-form.component.ts:35-39 | the form opens with one star lit and invalid; a reset differs from it only in the rating, which goes to zero |
| ReviewForm.TitleRule | src/app/features/reviews/components/review-form/review-form.component.ts:62 | a title passes if and only if it is not all whitespace |
| ReviewForm.BlankIsInvalid | src/app/features/reviews/components/review-form/review-form.component.ts:97-103 | a form right after a reset is invalid |
| ReviewForm.Submit | src/app/features/reviews/components/review-form/review-form.component.ts:66-81 | sends a draft if and only if the form is valid and idle; if not, the form is unchanged; if so, it turns submitting and sends the game, `You`, the rating and the trimmed texts |
| ReviewForm.NoDoubleSubmit | src/app/features/reviews/components/review-form/review-form.component.ts:67-71 | a second submit while one is in flight sends nothing |
| ReviewForm.SentDraftIsValid | src/app/features/reviews/components/review-form/review-form.component.ts:60-81 | a sent draft already has trimmed texts, a non-empty title, content of at least ten units, and at least one star |
| ReviewForm.Succeeded | src/app/features/reviews/components/review-form/review-form.component.ts:82-85 | success emits `reviewSubmitted` and leaves an invalid blank form |
| ReviewForm.Failed | src/app/features/reviews/components/review-form/review-form.component.ts:86-88 | an error clears only the in-flight flag |
| ReviewForm.Cancel | src/app/features/reviews/components/review-form/review-form.component.ts:92-95 | cancel emits `cancelled` and leaves an invalid blank form |
| ReviewForm.RetryAfterFailure | src/app/features/reviews/components/review-form/review-form.component.ts:86-88 | after a failure, submitting again sends the same draft |
| ReviewForm.SubmitThenStore | src/app/features/reviews/components/review-form/review-form.component.ts:75-81 | a valid form, once stored, gives a review by `You` with the trimmed texts and the rating, and a consistent aggregate for the game |

## Left out

- Angular signals, `computed` and dependency injection are left out, and so
  are RxJS scheduling (`delay(100)`, `of`) and subscription mechanics. A
  delayed read is the value at call time. A subject push is a trace entry.
  A held subscription is `Store.ReviewFeed`.
- Floating point is left out. Ratings are exact tenths, and `averageRating`
  values that are not multiples of 0.1 are not represented.
- `Math.round` is modelled only for the non-negative means the store
  produces.
- Page `getRatingStars` on floats is modelled as `GameDetail.RatingStars`
  over tenths. The identical copies in `game-list.component.ts:93-103` and
  `my-library.component.ts:55-65` are the same function.
- `localeCompare` is left out: it is the parameter `collate`, constrained
  only to be a total preorder.
- `toLowerCase` covers ASCII letters only, because Unicode case mapping is
  not modelled.
- The default `sort()` compares code points. It differs from the engine's
  UTF-16 order only for characters above U+FFFF.
- Store.UpdateGameRating: requires at least one review of the game. With
  none, the source divides by zero and writes NaN; its only caller has just
  added a review.
- Store.AddReview: the `Observable` result and its `delay` are not
  modelled. The call is `of(newReview).pipe(delay(100))`, which never
  errors, so with this service the form's error path (`ReviewForm.Failed`)
  is unreachable; it is modelled as the component writes it.
- Store.ReviewId: an id is `review-` plus the clock reading, so two reviews
  added in the same millisecond share an id; uniqueness is not claimed
  (`Store.ReviewIdCollision`).
- Scenarios: facts about the seed are stated for any `SeedTexts`, the long
  texts (URLs, descriptions, review contents), and hold for the seeded ones
  in particular.
- `MockData.MockGameStatuses`: the one `new Date()` in the seed is the
  parameter `now`.
- The `default` branch of the game-list comparator is unreachable for the
  three sort keys, and is not modelled.
- `hoursPlayed` is an integer; fractional hours are not modelled.
- Router navigation (`goBack`, `viewGame`, the redirect for an unknown
  game), `app.routes.ts`, `theme.service.ts`, templates and styles are
  framework configuration or DOM glue. They are not part of this model.
- `GameDetail.Open` reads the reviews once. Later pushes to the page's
  subscription are what `Store.FeedAfterSession` describes.

## Findings

| source | as written | input that shows it | evidently intended | confidence | as-written member | corrected member |
|---|---|---|---|---|---|---|
| src/app/features/games/pages/game-detail/game-detail.component.ts:124-132 | `icons[status] \|\| 'add'` on a plain object literal | `getStatusIcon('constructor')` returns the `Object` function, not a string | every non-status string gives `'add'` | low: the templates may pass only status names; not executed | GameDetail.StatusIconAsWritten, GameDetail.InheritedNamesEscapeFallback | GameDetail.StatusIcon |
| src/app/features/games/pages/game-detail/game-detail.component.ts:134-142 | `labels[status] \|\| 'Add to Library'` on a plain object literal | `getStatusLabel('toString')` returns a function, not a string | every non-status string gives `'Add to Library'` | low: the templates may pass only status names; not executed | GameDetail.StatusLabelAsWritten, GameDetail.InheritedNamesEscapeFallback | GameDetail.StatusLabel |
