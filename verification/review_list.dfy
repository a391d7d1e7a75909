/**
 * The review list (`ReviewListComponent`): reviews newest first, the stars
 * of a review, and the "time since" caption.
 */
module ReviewList {
  import opened Model
  import opened Sorting
  import opened Stars
  import Text

  /** The comparator `b.createdAt - a.createdAt` as "a may come before b": newer first. */
  function NewerFirst(): (Review, Review) -> bool {
    (a: Review, b: Review) => a.createdAt >= b.createdAt
  }

  lemma NewerFirstTotalPreorder()
    ensures TotalPreorder(NewerFirst())
  {
  }

  /** `sortedReviews`: a copy of the input sorted by creation time, newest first. */
  function SortedReviews(reviews: seq<Review>): (r: seq<Review>)
    ensures multiset(r) == multiset(reviews)
    ensures forall i, j :: 0 <= i < j < |r| ==> r[i].createdAt >= r[j].createdAt
  {
    NewerFirstTotalPreorder();
    SortBySorted(reviews, NewerFirst());
    SortBy(reviews, NewerFirst())
  }

  /** Reviews created at the same instant keep their input order. */
  lemma SortedReviewsStable(reviews: seq<Review>, at: Time)
    ensures Seqs.Filter(SortedReviews(reviews), (x: Review) => x.createdAt == at)
         == Seqs.Filter(reviews, (x: Review) => x.createdAt == at)
  {
    NewerFirstTotalPreorder();
    SortByStable(reviews, NewerFirst(), (x: Review) => x.createdAt == at);
  }

  /** `getRatingStars(rating)` for a whole-star review rating: `rating` full stars, then empty ones. */
  function ReviewStars(rating: Rating): (r: seq<string>)
    ensures |r| == 5
    ensures forall k :: 0 <= k < 5 ==> (r[k] == Star <==> k < rating) && (r[k] == EmptyStar <==> k >= rating) && r[k] != HalfStar
  {
    Repeat(Star, rating) + Repeat(EmptyStar, 5 - rating)
  }

  /** The stars of a review show exactly its rating. */
  lemma ReviewStarsShowRating(rating: Rating)
    ensures HalfStars(ReviewStars(rating)) == 2 * rating
  {
    HalfStarsRepeat(Star, rating);
    HalfStarsRepeat(EmptyStar, 5 - rating);
    HalfStarsAppend(Repeat(Star, rating), Repeat(EmptyStar, 5 - rating));
  }

  // --------------------------------------------------------- time since

  const MsPerDay: int := 1000 * 60 * 60 * 24

  /**
   * Whole days from `date` to `now`, rounded down as `Math.floor` does
   * (negative when `date` lies in the future).
   */
  function DaysBetween(now: Time, date: Time): (d: int)
    ensures MsPerDay * d <= now - date < MsPerDay * (d + 1)
  {
    (now - date) / MsPerDay
  }

  datatype Unit = Day | Week | Month | Year

  /** The caption before it is spelled out. */
  datatype Since = Today | Yesterday | Ago(count: int, unit: Unit)

  /** The length of a unit in days, as the caption divides. */
  function UnitDays(u: Unit): nat {
    match u
    case Day => 1
    case Week => 7
    case Month => 30
    case Year => 365
  }

  /**
   * The branches of `getTimeSince`: the unit is chosen by the range the day
   * count falls in, and the count is rounded down to whole units.
   */
  function Classify(days: int): (r: Since)
    ensures r == Today <==> days == 0
    ensures r == Yesterday <==> days == 1
    ensures (r.Ago? && r.unit == Day) <==> (days < 0 || 2 <= days < 7)
    ensures (r.Ago? && r.unit == Week) <==> 7 <= days < 30
    ensures (r.Ago? && r.unit == Month) <==> 30 <= days < 365
    ensures (r.Ago? && r.unit == Year) <==> 365 <= days
    ensures r.Ago? ==> r.count * UnitDays(r.unit) <= days < (r.count + 1) * UnitDays(r.unit)
    ensures r.Ago? && r.unit != Day ==> r.count >= 1
  {
    if days == 0 then Today
    else if days == 1 then Yesterday
    else if days < 7 then Ago(days, Day)
    else if days < 30 then Ago(days / 7, Week)
    else if days < 365 then Ago(days / 30, Month)
    else Ago(days / 365, Year)
  }

  /** Orders captions from recent to old. */
  function Rank(s: Since): (int, int) {
    match s
    case Today => (0, 0)
    case Yesterday => (1, 0)
    case Ago(c, u) => (match u case Day => 2 case Week => 3 case Month => 4 case Year => 5, c)
  }

  predicate RankLe(a: (int, int), b: (int, int)) {
    a.0 < b.0 || (a.0 == b.0 && a.1 <= b.1)
  }

  /** An older date never gets a more recent caption. */
  lemma ClassifyMonotone(d1: int, d2: int)
    requires 0 <= d1 <= d2
    ensures RankLe(Rank(Classify(d1)), Rank(Classify(d2)))
  {
    var r1 := Classify(d1);
    var r2 := Classify(d2);
    if r1.Ago? && r2.Ago? && r1.unit == r2.unit {
      var u := UnitDays(r1.unit);
      assert r1.count * u <= d1 <= d2 < (r2.count + 1) * u;
    }
  }

  /** The singular English name of a unit. */
  function UnitName(u: Unit): string {
    match u
    case Day => "day"
    case Week => "week"
    case Month => "month"
    case Year => "year"
  }

  /** The English word of a unit, plural unless the count is one (days are always plural). */
  function UnitWord(u: Unit, count: int): (r: string)
    ensures |r| >= 3
    ensures r[|r| - 1] == 's' <==> u == Day || count != 1
    ensures r == UnitName(u) + (if u == Day || count != 1 then "s" else "")
  {
    match u
    case Day => "days"
    case Week => if count == 1 then "week" else "weeks"
    case Month => if count == 1 then "month" else "months"
    case Year => if count == 1 then "year" else "years"
  }

  /** Distinct units never share a word. */
  lemma UnitWordInjective(u1: Unit, c1: int, u2: Unit, c2: int)
    requires UnitWord(u1, c1) == UnitWord(u2, c2)
    ensures u1 == u2
  {
    var w := UnitWord(u1, c1);
    assert w[0] == UnitName(u1)[0] && w[0] == UnitName(u2)[0];
  }

  /**
   * The caption's text: the two named days, or the count, a space, the unit
   * word and " ago".
   */
  function Render(s: Since): (r: string)
    ensures r == "Today" <==> s == Today
    ensures r == "Yesterday" <==> s == Yesterday
    ensures s.Ago? ==> |r| >= |Text.Decimal(s.count)| + 9 && r[|r| - 4..] == " ago" && r[..|Text.Decimal(s.count)| + 1] == Text.Decimal(s.count) + " "
    ensures s.Ago? ==> r[|Text.Decimal(s.count)| + 1..|r| - 4] == UnitWord(s.unit, s.count)
  {
    match s
    case Today => "Today"
    case Yesterday => "Yesterday"
    case Ago(c, u) => Text.Decimal(c) + " " + UnitWord(u, c) + " ago"
  }

  /** A caption counted in units is the count followed by its tail. */
  lemma AgoText(c: int, u: Unit, tail: string)
    requires tail == " " + UnitWord(u, c) + " ago"
    ensures Render(Ago(c, u)) == Text.Decimal(c) + tail
  {
    assert Render(Ago(c, u)) == Text.Decimal(c) + " " + UnitWord(u, c) + " ago";
  }

  /** A rendered integer holds no space. */
  lemma DecimalNoSpace(c: int)
    ensures forall k :: 0 <= k < |Text.Decimal(c)| ==> Text.Decimal(c)[k] != ' '
  {
  }

  /** Two space-free heads each followed by a space split a string at the same place. */
  lemma SplitAtFirstSpace(a: string, ta: string, b: string, tb: string)
    requires a + ta == b + tb
    requires |ta| > 0 && ta[0] == ' ' && |tb| > 0 && tb[0] == ' '
    requires forall k :: 0 <= k < |a| ==> a[k] != ' '
    requires forall k :: 0 <= k < |b| ==> b[k] != ' '
    ensures a == b && ta == tb
  {
    assert a == (a + ta)[..|a|] && b == (b + tb)[..|b|];
    assert ta == (a + ta)[|a|..] && tb == (b + tb)[|b|..];
  }

  /** Distinct captions read differently: the text determines the caption. */
  lemma RenderInjective(a: Since, b: Since)
    requires Render(a) == Render(b)
    ensures a == b
  {
    if a.Ago? && b.Ago? {
      var da, db := Text.Decimal(a.count), Text.Decimal(b.count);
      var wa, wb := UnitWord(a.unit, a.count), UnitWord(b.unit, b.count);
      var ta, tb := " " + wa + " ago", " " + wb + " ago";
      AgoText(a.count, a.unit, ta);
      AgoText(b.count, b.unit, tb);
      DecimalNoSpace(a.count);
      DecimalNoSpace(b.count);
      SplitAtFirstSpace(da, ta, db, tb);
      Text.DecimalInjective(a.count, b.count);
      assert wa == ta[1..|ta| - 4] == tb[1..|tb| - 4] == wb;
      UnitWordInjective(a.unit, a.count, b.unit, b.count);
    }
  }

  /** The caption for a day count, spelled out for each range. */
  lemma CaptionText(d: int)
    ensures d < 0 || 2 <= d < 7 ==> Render(Classify(d)) == Text.Decimal(d) + " days ago"
    ensures 7 <= d < 30 ==> Render(Classify(d)) == Text.Decimal(d / 7) + (if d / 7 == 1 then " week ago" else " weeks ago")
    ensures 30 <= d < 365 ==> Render(Classify(d)) == Text.Decimal(d / 30) + (if d / 30 == 1 then " month ago" else " months ago")
    ensures 365 <= d ==> Render(Classify(d)) == Text.Decimal(d / 365) + (if d / 365 == 1 then " year ago" else " years ago")
  {
    if d < 0 || 2 <= d < 7 {
      AgoText(d, Day, " days ago");
    } else if 7 <= d < 30 {
      AgoText(d / 7, Week, if d / 7 == 1 then " week ago" else " weeks ago");
    } else if 30 <= d < 365 {
      AgoText(d / 30, Month, if d / 30 == 1 then " month ago" else " months ago");
    } else if 365 <= d {
      AgoText(d / 365, Year, if d / 365 == 1 then " year ago" else " years ago");
    }
  }

  /**
   * `getTimeSince(date)` read at instant `now`: the caption for the whole
   * days elapsed, a future date giving a negative count of days.
   */
  function TimeSince(now: Time, date: Time): (r: string)
    ensures r == "Today" <==> 0 <= now - date < MsPerDay
    ensures r == "Yesterday" <==> MsPerDay <= now - date < 2 * MsPerDay
    ensures var d := DaysBetween(now, date);
            d < 0 || 2 <= d < 7 ==> r == Text.Decimal(d) + " days ago"
    ensures var d := DaysBetween(now, date);
            7 <= d < 30 ==> r == Text.Decimal(d / 7) + (if d / 7 == 1 then " week ago" else " weeks ago")
    ensures var d := DaysBetween(now, date);
            30 <= d < 365 ==> r == Text.Decimal(d / 30) + (if d / 30 == 1 then " month ago" else " months ago")
    ensures var d := DaysBetween(now, date);
            365 <= d ==> r == Text.Decimal(d / 365) + (if d / 365 == 1 then " year ago" else " years ago")
  {
    var d := DaysBetween(now, date);
    assert d == 0 <==> 0 <= now - date < MsPerDay;
    assert d == 1 <==> MsPerDay <= now - date < 2 * MsPerDay;
    CaptionText(d);
    Render(Classify(d))
  }
}
