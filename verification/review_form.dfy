/**
 * The review form (`ReviewFormComponent`): its signals, the star picker,
 * the validity rule, and the submit / cancel protocol around the store's
 * `addReview`.
 */
module ReviewForm {
  import opened Wrappers
  import opened Model
  import opened Text
  import opened Stars
  import Store

  /** A star the user can click or hover: one to five. */
  type StarChoice = r: int | 1 <= r <= 5 witness 1

  /** The form's signals. `hover` is zero when no star is hovered. */
  datatype FormState = FormState(rating: Rating, hover: Rating, title: string, content: string, submitting: bool)

  /** The state the form is created in: one star preselected. */
  const Initial: FormState := FormState(1, 0, "", "", false)

  /** The state `resetForm` leaves behind: note the rating goes back to zero, not one. */
  const Blank: FormState := FormState(0, 0, "", "", false)

  /** The name every review from this form is posted under. */
  const ReviewerName: string := "You"

  /** The shortest content, in UTF-16 units after trimming, the form accepts. */
  const MinContentLength: nat := 10

  function SetRating(f: FormState, star: StarChoice): (r: FormState)
    ensures r.rating == star && r.rating > 0
    ensures r.(rating := f.rating) == f
  {
    f.(rating := star)
  }

  function SetHoverRating(f: FormState, star: StarChoice): (r: FormState)
    ensures r.hover == star
    ensures r.(hover := f.hover) == f
  {
    f.(hover := star)
  }

  function ClearHoverRating(f: FormState): (r: FormState)
    ensures r.hover == 0
    ensures r.(hover := f.hover) == f
  {
    f.(hover := 0)
  }

  /** The rating the picker shows: the hovered star if any, else the chosen one. */
  function ActiveRating(f: FormState): (a: Rating)
    ensures f.hover != 0 ==> a == f.hover
    ensures f.hover == 0 ==> a == f.rating
  {
    if f.hover != 0 then f.hover else f.rating
  }

  /** `getStarIcon(star)`. */
  function StarIcon(f: FormState, star: int): (r: string)
    ensures r == Star <==> star <= ActiveRating(f)
    ensures r != Star ==> r == EmptyStar
  {
    if star <= ActiveRating(f) then Star else EmptyStar
  }

  /** The five picker icons, stars 1 to 5. */
  function Picker(f: FormState): (r: seq<string>)
    ensures |r| == 5
    ensures forall k :: 0 <= k < 5 ==> r[k] == StarIcon(f, k + 1)
  {
    [StarIcon(f, 1), StarIcon(f, 2), StarIcon(f, 3), StarIcon(f, 4), StarIcon(f, 5)]
  }

  /** The picker lights exactly as many stars as the active rating. */
  lemma PickerShowsActiveRating(f: FormState)
    ensures HalfStars(Picker(f)) == 2 * ActiveRating(f)
  {
    var a := ActiveRating(f);
    var lit := Repeat(Star, a);
    var dark := Repeat(EmptyStar, 5 - a);
    assert Picker(f) == lit + dark;
    HalfStarsRepeat(Star, a);
    HalfStarsRepeat(EmptyStar, 5 - a);
    HalfStarsAppend(lit, dark);
  }

  /**
   * `isFormValid()`: a star is picked, the title is not all whitespace, and
   * the trimmed content is at least ten UTF-16 units long (so at least five
   * characters).
   */
  function IsFormValid(f: FormState): (r: bool)
    ensures r <==> f.rating > 0 && !AllWhitespace(f.title) && Utf16Length(Trim(f.content)) >= MinContentLength
    ensures r ==> |Trim(f.content)| >= MinContentLength / 2
  {
    TrimEmptyIffBlank(f.title);
    && f.rating > 0
    && Utf16Length(Trim(f.title)) > 0
    && Utf16Length(Trim(f.content)) >= MinContentLength
  }

  /** A title passes exactly when it is not all whitespace. */
  lemma TitleRule(f: FormState)
    ensures Utf16Length(Trim(f.title)) > 0 <==> !AllWhitespace(f.title)
  {
    TrimEmptyIffBlank(f.title);
  }

  /**
   * The form opens with one star lit, which a reset takes back to none;
   * either way it cannot be submitted before texts are typed.
   */
  lemma InitialForm()
    ensures ActiveRating(Initial) == 1 && Picker(Initial)[0] == Star && Picker(Initial)[1] == EmptyStar
    ensures !IsFormValid(Initial)
    ensures Initial.(rating := 0) == Blank
  {
  }

  /** A freshly reset form cannot be submitted until a star is picked and texts are typed. */
  lemma BlankIsInvalid()
    ensures !IsFormValid(Blank)
  {
  }

  /** What `submitReview()` does: the new form state and the draft handed to `addReview`, if any. */
  datatype Submission = Submission(form: FormState, draft: Option<Store.ReviewDraft>)

  /**
   * `submitReview()` for the game `gameId`: nothing happens when the form is
   * invalid or a submission is in flight; otherwise the form turns
   * submitting and the trimmed texts go to the store under the name "You".
   */
  function Submit(f: FormState, gameId: string): (r: Submission)
    ensures r.draft.Some? <==> IsFormValid(f) && !f.submitting
    ensures r.draft.None? ==> r.form == f
    ensures r.draft.Some? ==> r.form == f.(submitting := true)
    ensures r.draft.Some? ==>
              var d := r.draft.value;
              && d.gameId == gameId && d.userName == ReviewerName && d.userAvatar.None? && d.updatedAt.None?
              && d.rating == f.rating && 1 <= d.rating
              && d.title == Trim(f.title) && d.content == Trim(f.content)
  {
    if !IsFormValid(f) || f.submitting then Submission(f, None)
    else Submission(f.(submitting := true),
                    Some(Store.ReviewDraft(gameId, ReviewerName, None, f.rating, Trim(f.title), Trim(f.content), None)))
  }

  /** While a submission is in flight, pressing submit again sends nothing. */
  lemma NoDoubleSubmit(f: FormState, gameId: string)
    ensures Submit(Submit(f, gameId).form, gameId).draft.None?
  {
  }

  /**
   * A draft the form sends is already in the shape the form demands: a
   * non-blank trimmed title, trimmed content of at least ten units, and a
   * rating of at least one star.
   */
  lemma SentDraftIsValid(f: FormState, gameId: string)
    requires Submit(f, gameId).draft.Some?
    ensures var d := Submit(f, gameId).draft.value;
            && Trim(d.title) == d.title && Trim(d.content) == d.content
            && Utf16Length(d.title) > 0 && Utf16Length(d.content) >= MinContentLength
            && d.rating >= 1
  {
    TrimIdempotent(f.title);
    TrimIdempotent(f.content);
  }

  /** The component's outputs. */
  datatype Event = ReviewSubmitted | Cancelled

  datatype Outcome = Outcome(form: FormState, emitted: Event)

  /** The `next` callback of the submission: emit, then reset. */
  function Succeeded(f: FormState): (r: Outcome)
    ensures r.emitted == ReviewSubmitted && r.form == Blank && !IsFormValid(r.form)
  {
    Outcome(Blank, ReviewSubmitted)
  }

  /** The `error` callback: only the in-flight flag is cleared, the texts stay for a retry. */
  function Failed(f: FormState): (r: FormState)
    ensures !r.submitting
    ensures r.(submitting := f.submitting) == f
  {
    f.(submitting := false)
  }

  /** `cancel()`: emit, then reset. */
  function Cancel(f: FormState): (r: Outcome)
    ensures r.emitted == Cancelled && r.form == Blank && !IsFormValid(r.form)
  {
    Outcome(Blank, Cancelled)
  }

  /** After a failed submission the same form can be submitted again, with the same draft. */
  lemma RetryAfterFailure(f: FormState, gameId: string)
    requires Submit(f, gameId).draft.Some?
    ensures Submit(Failed(Submit(f, gameId).form), gameId) == Submit(f, gameId)
  {
  }

  /**
   * A valid form posted to the store yields a review under the name "You"
   * with the trimmed texts, and leaves the game's aggregate consistent.
   */
  lemma SubmitThenStore(f: FormState, gameId: string, s: Store.State, clock: int, createdAt: Time)
    requires IsFormValid(f) && !f.submitting
    ensures var p := Store.AddReview(s, Submit(f, gameId).draft.value, clock, createdAt);
            && p.review.userName == ReviewerName
            && p.review.title == Trim(f.title) && p.review.content == Trim(f.content)
            && p.review.rating == f.rating
            && p.review.userId == Store.CurrentUserId
            && Store.Consistent(p.state.games, p.state.reviews, gameId)
  {
  }
}
