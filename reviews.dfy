/** The therapist's reviews page (Review): reviews built from the server's
    records, the filtered and sorted list, the counts of the summary cards
    and rating bars, and the star row. */
module Reviews {
  import opened Text
  import opened Collections

  /** A review as the page shows it. */
  datatype Review = Review(
    id: string,
    patientName: string,
    rating: int,
    date: string,
    session: string,
    comment: string,
    responseTime: string)

  /** A review record from the server. `rating` is None when it is missing
      or not a number; `date` is the `YYYY-MM-DD` day of the appointment (or
      of the review) and `diffDays` the rounded number of days since the
      review was written, both worked out from the clock outside this
      model. */
  datatype BackendReview = BackendReview(
    id: string,
    rating: Option<int>,
    review: Option<string>,
    firstName: Option<string>,
    lastName: Option<string>,
    issue: Option<string>,
    date: string,
    diffDays: int)

  /** The "Today" / "1 day ago" / "N days ago" label. */
  function ResponseTime(diffDays: int): (r: string)
    ensures diffDays <= 0 <==> r == "Today"
    ensures diffDays == 1 <==> r == "1 day ago"
    ensures diffDays > 1 ==> r == NatToString(diffDays) + " days ago"
  {
    if diffDays <= 0 then "Today"
    else if diffDays == 1 then "1 day ago"
    else NatToString(diffDays) + " days ago"
  }

  /** Two reviews written a different number of days ago (at least one day)
      never share a label. */
  lemma ResponseTimeDistinguishes(d1: int, d2: int)
    requires d1 >= 1 && d2 >= 1 && ResponseTime(d1) == ResponseTime(d2)
    ensures d1 == d2
  {
    if d1 > 1 && d2 > 1 {
      var s1, s2 := NatToString(d1), NatToString(d2);
      var suffix := " days ago";
      assert s1 + suffix == s2 + suffix;
      assert |s1| == |s2|;
      assert s1 == (s1 + suffix)[..|s1|];
      assert s2 == (s2 + suffix)[..|s2|];
      DecimalRoundTrip(d1);
      DecimalRoundTrip(d2);
    }
  }

  /** The patient name: first and last name joined by a space and trimmed,
      or 'Client' when that leaves nothing. */
  function PatientName(firstName: Option<string>, lastName: Option<string>): (r: string)
    ensures r != []
  {
    var full := Trim(OrDefault(firstName, "") + " " + OrDefault(lastName, ""));
    if full == [] then "Client" else full
  }

  /** 'Client' stands in exactly when both names are missing or blank (or
      the name really is 'Client'). */
  lemma PatientNameFallback(firstName: Option<string>, lastName: Option<string>)
    ensures var f, l := OrDefault(firstName, ""), OrDefault(lastName, "");
      (AllSpace(f) && AllSpace(l) ==> PatientName(firstName, lastName) == "Client")
      && (!(AllSpace(f) && AllSpace(l)) ==> PatientName(firstName, lastName) == Trim(f + " " + l))
  {
    var f, l := OrDefault(firstName, ""), OrDefault(lastName, "");
    AllSpaceAppend(f, " ");
    AllSpaceAppend(f + " ", l);
    assert IsSpace(' ');
    assert AllSpace(" ");
  }

  /** The mapping of a server record to a shown review. */
  function MapReview(b: BackendReview): (r: Review)
    ensures r.id == b.id && r.date == b.date
    ensures r.patientName == PatientName(b.firstName, b.lastName)
    ensures r.rating == if b.rating.Some? then b.rating.value else 0
    ensures b.issue.Some? && b.issue.value != "" ==> r.session == b.issue.value
    ensures b.issue.None? || b.issue.value == "" ==> r.session == "Therapy Session"
    ensures r.comment == if b.review.Some? then b.review.value else ""
    ensures r.responseTime == ResponseTime(b.diffDays)
  {
    Review(b.id, PatientName(b.firstName, b.lastName), b.rating.GetOr(0), b.date,
           OrDefault(b.issue, "Therapy Session"), OrDefault(b.review, ""),
           ResponseTime(b.diffDays))
  }

  // ---------------------------------------------------------------------
  // Filtering and sorting
  // ---------------------------------------------------------------------

  datatype SortKey = Recent | ByRating

  /** The search box matches a review when it is empty or, case aside,
      occurs in the name, the comment or the session. */
  predicate SearchHit(r: Review, term: string) {
    term == []
    || Contains(ToLower(r.patientName), ToLower(term))
    || Contains(ToLower(r.comment), ToLower(term))
    || Contains(ToLower(r.session), ToLower(term))
  }

  /** The rating filter (None for "all") and the search box. */
  predicate Shown(r: Review, filterRating: Option<int>, term: string) {
    (filterRating.None? || r.rating == filterRating.value) && SearchHit(r, term)
  }

  function ShownBy(filterRating: Option<int>, term: string): Review -> bool {
    (r: Review) => Shown(r, filterRating, term)
  }

  /** The comparator: higher rating first, or later date first. */
  function Before(key: SortKey): (Review, Review) -> bool {
    match key
    case ByRating => (a: Review, b: Review) => a.rating >= b.rating
    case Recent => (a: Review, b: Review) => LexLe(b.date, a.date)
  }

  lemma BeforeIsTotalPreorder(key: SortKey)
    ensures TotalPreorder(Before(key))
  {
    if key == Recent {
      forall a: Review, b: Review
        ensures Before(key)(a, b) || Before(key)(b, a)
      {
        LexLeTotal(a.date, b.date);
      }
      forall a: Review, b: Review, c: Review | Before(key)(a, b) && Before(key)(b, c)
        ensures Before(key)(a, c)
      {
        LexLeTransitive(c.date, b.date, a.date);
      }
    }
  }

  /** filteredReviews: the shown reviews, ordered by the chosen key. */
  function FilteredReviews(reviews: seq<Review>, filterRating: Option<int>, term: string, key: SortKey)
    : (r: seq<Review>)
    ensures forall x :: x in r <==> x in reviews && Shown(x, filterRating, term)
    ensures Sorted(r, Before(key))
  {
    var shown := Filter(reviews, ShownBy(filterRating, term));
    BeforeIsTotalPreorder(key);
    SortBySorted(shown, Before(key));
    SortByMembers(shown, Before(key));
    SortBy(shown, Before(key))
  }

  /** Every shown review appears as often as in the full list, and no other
      review appears at all. */
  lemma FilteredReviewsCounts(reviews: seq<Review>, filterRating: Option<int>, term: string,
                              key: SortKey, x: Review)
    ensures multiset(FilteredReviews(reviews, filterRating, term, key))[x]
            == if Shown(x, filterRating, term) then multiset(reviews)[x] else 0
  {
    FilterMultiset(reviews, ShownBy(filterRating, term), x);
  }

  /** The reviews the comparator cannot tell apart from `c`: the same rating,
      or the same date. */
  function Tied(key: SortKey, c: Review): Review -> bool {
    match key
    case ByRating => (a: Review) => a.rating == c.rating
    case Recent => (a: Review) => a.date == c.date
  }

  /** The sort is stable: reviews with the same rating (or date) are listed
      in the order the server sent them. */
  lemma FilteredReviewsKeepTies(reviews: seq<Review>, filterRating: Option<int>, term: string,
                                key: SortKey, c: Review)
    ensures Filter(FilteredReviews(reviews, filterRating, term, key), Tied(key, c))
            == Filter(Filter(reviews, ShownBy(filterRating, term)), Tied(key, c))
  {
    var tie := Tied(key, c);
    forall y, z | tie(y) && tie(z)
      ensures Before(key)(y, z)
    {
      LexLeTotal(y.date, z.date);
    }
    SortByKeepsTies(Filter(reviews, ShownBy(filterRating, term)), Before(key), tie);
  }

  /** Without a rating filter and with an empty search box every review is
      listed. */
  lemma NoFilterShowsAll(reviews: seq<Review>, key: SortKey)
    ensures |FilteredReviews(reviews, None, "", key)| == |reviews|
  {
    FilterAll(reviews, ShownBy(None, ""));
  }

  // ---------------------------------------------------------------------
  // Counts
  // ---------------------------------------------------------------------

  function HasRating(k: int): Review -> bool {
    (r: Review) => r.rating == k
  }

  /** The five-star card. */
  function FiveStarCount(reviews: seq<Review>): (n: nat)
    ensures n <= |reviews|
  {
    Count(reviews, HasRating(5))
  }

  /** ratingDistribution's counts, for ratings 5, 4, 3, 2, 1 in that order. */
  function RatingDistribution(reviews: seq<Review>): (r: seq<(int, nat)>)
    ensures |r| == 5
    ensures forall k :: 0 <= k < 5 ==> r[k].0 == 5 - k && r[k].1 == Count(reviews, HasRating(5 - k))
  {
    seq(5, k requires 0 <= k < 5 => (5 - k, Count(reviews, HasRating(5 - k))))
  }

  function SumCounts(d: seq<(int, nat)>): nat {
    if d == [] then 0 else d[0].1 + SumCounts(d[1..])
  }

  /** The number of reviews with rating `k` among `[x] + s`. */
  lemma CountCons(x: Review, s: seq<Review>, k: int)
    ensures Count([x] + s, HasRating(k)) == (if x.rating == k then 1 else 0) + Count(s, HasRating(k))
  {
    assert ([x] + s)[1..] == s;
  }

  /** The five counts added up. */
  function Total5(reviews: seq<Review>): nat {
    Count(reviews, HasRating(5)) + Count(reviews, HasRating(4)) + Count(reviews, HasRating(3))
    + Count(reviews, HasRating(2)) + Count(reviews, HasRating(1))
  }

  lemma SumIsTotal5(reviews: seq<Review>)
    ensures SumCounts(RatingDistribution(reviews)) == Total5(reviews)
  {
    var d := RatingDistribution(reviews);
    assert SumCounts(d[4..]) == d[4].1 + SumCounts(d[5..]);
    assert SumCounts(d[3..]) == d[3].1 + SumCounts(d[4..]) by { assert d[3..][1..] == d[4..]; }
    assert SumCounts(d[2..]) == d[2].1 + SumCounts(d[3..]) by { assert d[2..][1..] == d[3..]; }
    assert SumCounts(d[1..]) == d[1].1 + SumCounts(d[2..]) by { assert d[1..][1..] == d[2..]; }
  }

  /** A review adds one to the total when its rating is 1 to 5, else nothing. */
  lemma Total5Cons(x: Review, s: seq<Review>)
    ensures Total5([x] + s) == Total5(s) + (if 1 <= x.rating <= 5 then 1 else 0)
  {
    CountCons(x, s, 5);
    CountCons(x, s, 4);
    CountCons(x, s, 3);
    CountCons(x, s, 2);
    CountCons(x, s, 1);
  }

  lemma {:induction false} Total5Within(reviews: seq<Review>)
    ensures Total5(reviews) <= |reviews|
  {
    if reviews != [] {
      assert reviews == [reviews[0]] + reviews[1..];
      Total5Within(reviews[1..]);
      Total5Cons(reviews[0], reviews[1..]);
    }
  }

  /** The five bars together count each review at most once. */
  lemma DistributionWithinTotal(reviews: seq<Review>)
    ensures SumCounts(RatingDistribution(reviews)) <= |reviews|
  {
    SumIsTotal5(reviews);
    Total5Within(reviews);
  }

  /** The five-star card and the top bar agree. */
  lemma FiveStarIsTopBar(reviews: seq<Review>)
    ensures RatingDistribution(reviews)[0].1 == FiveStarCount(reviews)
  {
  }

  // ---------------------------------------------------------------------
  // Stars
  // ---------------------------------------------------------------------

  /** renderStars: star k, for k from 1 to 5, is filled when k <= rating. */
  function Stars(rating: int): (r: seq<bool>)
    ensures |r| == 5
    ensures forall i :: 0 <= i < 5 ==> (r[i] <==> i + 1 <= rating)
  {
    seq(5, i requires 0 <= i < 5 => i + 1 <= rating)
  }

  function FilledCount(stars: seq<bool>): nat {
    if stars == [] then 0 else (if stars[0] then 1 else 0) + FilledCount(stars[1..])
  }

  /** The filled stars come first, and their number is the rating clamped to
      0..5. */
  lemma StarsShowRating(rating: int)
    ensures var n := if rating < 0 then 0 else if rating > 5 then 5 else rating;
      FilledCount(Stars(rating)) == n
    ensures forall i, j :: 0 <= i < j < 5 && Stars(rating)[j] ==> Stars(rating)[i]
  {
    var s := Stars(rating);
    assert FilledCount(s[4..]) == (if s[4] then 1 else 0) + FilledCount(s[5..]);
    assert FilledCount(s[3..]) == (if s[3] then 1 else 0) + FilledCount(s[4..]) by { assert s[3..][1..] == s[4..]; }
    assert FilledCount(s[2..]) == (if s[2] then 1 else 0) + FilledCount(s[3..]) by { assert s[2..][1..] == s[3..]; }
    assert FilledCount(s[1..]) == (if s[1] then 1 else 0) + FilledCount(s[2..]) by { assert s[1..][1..] == s[2..]; }
    assert FilledCount(s) == (if s[0] then 1 else 0) + (if s[1] then 1 else 0) + (if s[2] then 1 else 0)
                             + (if s[3] then 1 else 0) + (if s[4] then 1 else 0);
  }
}
