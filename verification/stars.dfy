/**
 * The star icons the pages draw for ratings (Material icon names), and the
 * rating a row of icons shows.
 */
module Stars {
  const Star: string := "star"
  const HalfStar: string := "star_half"
  const EmptyStar: string := "star_border"

  /** `n` copies of `icon`: `Array(n).fill(icon)`. */
  function Repeat(icon: string, n: nat): (r: seq<string>)
    ensures |r| == n
    ensures forall k :: 0 <= k < n ==> r[k] == icon
  {
    if n == 0 then [] else [icon] + Repeat(icon, n - 1)
  }

  /** The rating the icons show, in half stars. */
  function HalfStars(icons: seq<string>): nat {
    if |icons| == 0 then 0
    else (if icons[0] == Star then 2 else if icons[0] == HalfStar then 1 else 0) + HalfStars(icons[1..])
  }

  lemma {:induction false} HalfStarsAppend(a: seq<string>, b: seq<string>)
    ensures HalfStars(a + b) == HalfStars(a) + HalfStars(b)
  {
    if |a| == 0 {
      assert a + b == b;
    } else {
      assert (a + b)[1..] == a[1..] + b;
      HalfStarsAppend(a[1..], b);
    }
  }

  lemma {:induction false} HalfStarsRepeat(icon: string, n: nat)
    ensures HalfStars(Repeat(icon, n)) == n * (if icon == Star then 2 else if icon == HalfStar then 1 else 0)
  {
    if n > 0 {
      HalfStarsRepeat(icon, n - 1);
    }
  }
}
