/** The admin's view of one user (UserDetail): initials for the avatar, the
    age from the date of birth, the session rating's stars and label, the
    colours of session modes and issues, and the status badge. */
module UserDetail {
  import opened Text
  import Reviews

  // ---------------------------------------------------------------------
  // Initials
  // ---------------------------------------------------------------------

  /** The upper-cased first character of a name, or nothing for an empty
      one. */
  function Initial(name: string): (r: string)
    ensures |r| == if name == [] then 0 else 1
    ensures name != [] ==> r[0] == UpperChar(name[0])
  {
    if name == [] then [] else [UpperChar(name[0])]
  }

  /** getUserInitials: the initials of the first and the last name, at
      most two characters. */
  function Initials(firstName: string, lastName: string): (r: string)
    ensures |r| <= 2
    ensures |r| == (if firstName == [] then 0 else 1) + (if lastName == [] then 0 else 1)
    ensures forall i :: 0 <= i < |r| ==> !('a' <= r[i] <= 'z')
    ensures firstName != [] ==> r[0] == UpperChar(firstName[0]) && LowerChar(r[0]) == LowerChar(firstName[0])
    ensures lastName != [] ==> r[|r| - 1] == UpperChar(lastName[0]) && LowerChar(r[|r| - 1]) == LowerChar(lastName[0])
  {
    Initial(firstName) + Initial(lastName)
  }

  /** The initials do not depend on how the names are capitalised. */
  lemma InitialsIgnoreCase(firstName: string, lastName: string)
    ensures Initials(ToLower(firstName), ToLower(lastName)) == Initials(firstName, lastName)
  {
    if firstName != [] {
      assert ToLower(firstName)[0] == LowerChar(firstName[0]);
    }
    if lastName != [] {
      assert ToLower(lastName)[0] == LowerChar(lastName[0]);
    }
  }

  // ---------------------------------------------------------------------
  // Age
  // ---------------------------------------------------------------------

  /** A calendar date; the month numbering only has to be the same on both
      sides. */
  datatype Date = Date(year: int, month: int, day: int)

  /** `a` is on or before `b`. */
  predicate DateLe(a: Date, b: Date) {
    a.year < b.year || (a.year == b.year && (a.month < b.month || (a.month == b.month && a.day <= b.day)))
  }

  /** The `n`-th birthday of someone born on `dob`. */
  function Birthday(dob: Date, n: int): Date {
    Date(dob.year + n, dob.month, dob.day)
  }

  datatype AgeText = NotAvailable | Years(n: int)

  /** calculateAge: 'N/A' without a date of birth; otherwise the number of
      birthdays reached by `today`, the year difference less one when this
      year's birthday is still to come. */
  function Age(dob: Option<Date>, today: Date): (r: AgeText)
    ensures r == NotAvailable <==> dob.None?
    ensures r.Years? ==> DateLe(Birthday(dob.value, r.n), today)
                         && !DateLe(Birthday(dob.value, r.n + 1), today)
  {
    match dob
    case None => NotAvailable
    case Some(birth) =>
      var age := today.year - birth.year;
      var monthDiff := today.month - birth.month;
      if monthDiff < 0 || (monthDiff == 0 && today.day < birth.day) then Years(age - 1) else Years(age)
  }

  /** Only one number of years fits: the age is determined by the last
      birthday reached. */
  lemma AgeUnique(birth: Date, today: Date, n: int)
    requires DateLe(Birthday(birth, n), today) && !DateLe(Birthday(birth, n + 1), today)
    ensures Age(Some(birth), today) == Years(n)
  {
  }

  /** On the `n`-th birthday the age is `n`. */
  lemma AgeOnBirthday(birth: Date, n: int)
    ensures Age(Some(birth), Birthday(birth, n)) == Years(n)
  {
    AgeUnique(birth, Birthday(birth, n), n);
  }

  /** Ages never go down as time passes. */
  lemma AgeMonotone(birth: Date, t1: Date, t2: Date)
    requires DateLe(t1, t2)
    ensures Age(Some(birth), t1).n <= Age(Some(birth), t2).n
  {
  }

  // ---------------------------------------------------------------------
  // Session rating
  // ---------------------------------------------------------------------

  /** The label next to the stars. */
  function RatingLabel(rating: int): (r: string)
    ensures rating == 5 <==> r == "Excellent"
    ensures rating == 4 <==> r == "Very Good"
    ensures rating == 3 <==> r == "Good"
    ensures rating == 2 <==> r == "Fair"
    ensures (rating < 2 || rating > 5) <==> r == "Poor"
  {
    if rating == 5 then "Excellent"
    else if rating == 4 then "Very Good"
    else if rating == 3 then "Good"
    else if rating == 2 then "Fair"
    else "Poor"
  }

  /** Star `i`, for `i` from 0 to 4, is filled when `i < rating`. */
  function SessionStars(rating: int): (r: seq<bool>)
    ensures |r| == 5
  {
    seq(5, i requires 0 <= i < 5 => i < rating)
  }

  /** The rule is the reviews page's: the same five stars, so the filled
      ones come first and number the rating clamped to 0..5. */
  lemma SessionStarsLikeReviewStars(rating: int)
    ensures SessionStars(rating) == Reviews.Stars(rating)
    ensures Reviews.FilledCount(SessionStars(rating))
            == if rating < 0 then 0 else if rating > 5 then 5 else rating
  {
    assert forall i :: 0 <= i < 5 ==> SessionStars(rating)[i] == Reviews.Stars(rating)[i];
    Reviews.StarsShowRating(rating);
  }

  // ---------------------------------------------------------------------
  // Colours and badges
  // ---------------------------------------------------------------------

  const ModeDefault := "bg-gray-100 text-gray-600"
  const IssueDefault := "bg-gray-50 text-gray-700"

  /** getModeColor: blue for video, green for audio, purple in person, grey
      for any other mode, matched as written. */
  function ModeColor(mode: string): (r: string)
    ensures r == ModeDefault <==> mode != "video" && mode != "audio" && mode != "in-person"
  {
    if mode == "video" then "bg-blue-100 text-blue-600"
    else if mode == "audio" then "bg-green-100 text-green-600"
    else if mode == "in-person" then "bg-purple-100 text-purple-600"
    else ModeDefault
  }

  /** Different known modes get different colours. */
  lemma ModeColorsDistinct(m1: string, m2: string)
    requires m1 in ["video", "audio", "in-person"] && m2 in ["video", "audio", "in-person"]
    requires ModeColor(m1) == ModeColor(m2)
    ensures m1 == m2
  {
  }

  /** getIssueColor: red for anxiety, orange for depression, yellow for
      stress management, grey otherwise, in any capitalisation. */
  function IssueColor(issue: string): (r: string)
    ensures var k := ToLower(issue);
      r == IssueDefault <==> k != "anxiety" && k != "depression" && k != "stress management"
  {
    var key := ToLower(issue);
    if key == "anxiety" then "bg-red-50 text-red-700"
    else if key == "depression" then "bg-orange-50 text-orange-700"
    else if key == "stress management" then "bg-yellow-50 text-yellow-700"
    else IssueDefault
  }

  /** Capitalisation never changes an issue's colour. */
  lemma IssueColorIgnoresCase(issue: string)
    ensures IssueColor(ToLower(issue)) == IssueColor(issue)
  {
    ToLowerIdempotent(issue);
  }

  /** The status badge: green when the status, lower-cased, is 'active'; red
      otherwise, a missing status included; its text falls back to
      'Unknown' for a missing or empty status. */
  function StatusBadge(status: Option<string>): (r: (bool, string))
    ensures r.0 <==> status.Some? && ToLower(status.value) == "active"
    ensures status.None? ==> r.1 == "Unknown"
    ensures status.Some? && status.value == [] ==> r.1 == "Unknown"
    ensures status.Some? && status.value != [] ==> r.1 == status.value
  {
    (status.Some? && ToLower(status.value) == "active", OrDefault(status, "Unknown"))
  }

  /** 'Active', 'ACTIVE' and 'active' all show green. */
  lemma StatusBadgeIgnoresCase(status: string)
    ensures StatusBadge(Some(ToLower(status))).0 == StatusBadge(Some(status)).0
  {
    ToLowerIdempotent(status);
  }
}
