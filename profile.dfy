/** The therapist's own profile page (Profile): the edit form filled from the
    fetched profile, the duplicate-free specialization and language lists,
    the certificate carousel and the approval badge. */
module TherapistProfile {
  import opened Text
  import opened Collections

  // ---------------------------------------------------------------------
  // Tag lists (specializations and languages)
  // ---------------------------------------------------------------------

  /** handleAddSpecialization / handleAddLanguage on the list and the input
      box: the trimmed input is appended when it is non-empty and not yet in
      the list, and the box is then cleared; otherwise nothing changes. */
  function AddTag(tags: seq<string>, input: string): (r: (seq<string>, string))
    ensures |r.0| == |tags| || |r.0| == |tags| + 1
    ensures r.0[..|tags|] == tags
    ensures |r.0| == |tags| + 1 ==> r.0[|tags|] == Trim(input) && r.1 == ""
    ensures |r.0| == |tags| ==> r.1 == input
  {
    var t := Trim(input);
    if t != [] && t !in tags then (tags + [t], "") else (tags, input)
  }

  /** A tag is added exactly when the trimmed input is non-empty and new. */
  lemma AddTagAddsNew(tags: seq<string>, input: string)
    ensures |AddTag(tags, input).0| == |tags| + 1 <==> Trim(input) != [] && Trim(input) !in tags
  {
  }

  /** Adding never introduces a duplicate. */
  lemma AddTagKeepsDistinct(tags: seq<string>, input: string)
    requires Distinct(tags)
    ensures Distinct(AddTag(tags, input).0)
  {
    var t := Trim(input);
    if t != [] && t !in tags {
      DistinctSnoc(tags, t);
    }
  }

  /** handleRemoveSpecialization / handleRemoveLanguage: every entry equal to
      `tag` is dropped and the others keep their order. */
  function RemoveTag(tags: seq<string>, tag: string): (r: seq<string>)
    ensures forall x :: x in r <==> x in tags && x != tag
    ensures |r| <= |tags|
  {
    Filter(tags, (x: string) => x != tag)
  }

  /** Every entry equal to `tag` goes; every other entry stays as often as
      it was there. */
  lemma RemoveTagCounts(tags: seq<string>, tag: string, x: string)
    ensures multiset(RemoveTag(tags, tag))[x] == if x == tag then 0 else multiset(tags)[x]
  {
    FilterMultiset(tags, (y: string) => y != tag, x);
  }

  /** The kept entries keep their order: removing from a list made of two
      parts removes from each part in place. */
  lemma RemoveTagAppend(a: seq<string>, b: seq<string>, tag: string)
    ensures RemoveTag(a + b, tag) == RemoveTag(a, tag) + RemoveTag(b, tag)
  {
    FilterAppend(a, b, (y: string) => y != tag);
  }

  /** Removing a tag that is not there changes nothing, order included. */
  lemma RemoveAbsentTag(tags: seq<string>, tag: string)
    requires tag !in tags
    ensures RemoveTag(tags, tag) == tags
  {
    FilterAll(tags, (x: string) => x != tag);
  }

  /** Removing the tag just added gives back the list from before. */
  lemma RemoveUndoesAdd(tags: seq<string>, input: string)
    requires Trim(input) != [] && Trim(input) !in tags
    ensures RemoveTag(AddTag(tags, input).0, Trim(input)) == tags
  {
    var t := Trim(input);
    var p := (x: string) => x != t;
    FilterAppend(tags, [t], p);
    FilterAll(tags, p);
    assert Filter([t], p) == [];
  }

  // ---------------------------------------------------------------------
  // The fetched profile and the edit form
  // ---------------------------------------------------------------------

  /** The profile fields the page reads; None is a null or missing field. */
  datatype ProfileData = ProfileData(
    phone: Option<string>,
    gender: Option<string>,
    experience: Option<string>,
    fee: Option<string>,
    qualification: Option<string>,
    specializations: Option<seq<string>>,
    languages: Option<seq<string>>,
    about: Option<string>,
    approvalStatus: string)

  datatype FormData = FormData(
    phone: string,
    gender: string,
    experience: string,
    fee: string,
    qualification: string,
    specializations: seq<string>,
    languages: seq<string>,
    about: string)

  /** The form filled by fetchProfile: each missing text becomes '' and each
      missing list []. */
  function FormDataOf(p: ProfileData): (f: FormData)
    ensures f.phone == if p.phone.Some? then p.phone.value else ""
    ensures f.gender == if p.gender.Some? then p.gender.value else ""
    ensures f.experience == if p.experience.Some? then p.experience.value else ""
    ensures f.fee == if p.fee.Some? then p.fee.value else ""
    ensures f.qualification == if p.qualification.Some? then p.qualification.value else ""
    ensures f.about == if p.about.Some? then p.about.value else ""
    ensures f.specializations == if p.specializations.Some? then p.specializations.value else []
    ensures f.languages == if p.languages.Some? then p.languages.value else []
  {
    FormData(p.phone.GetOr(""), p.gender.GetOr(""), p.experience.GetOr(""), p.fee.GetOr(""),
             p.qualification.GetOr(""), p.specializations.GetOr([]), p.languages.GetOr([]),
             p.about.GetOr(""))
  }

  /** The profile a server storing the submitted form would return. */
  function Stored(f: FormData, approvalStatus: string): ProfileData {
    ProfileData(Some(f.phone), Some(f.gender), Some(f.experience), Some(f.fee),
                Some(f.qualification), Some(f.specializations), Some(f.languages),
                Some(f.about), approvalStatus)
  }

  /** Submitting the form and fetching the stored profile fills the form with
      what was submitted. */
  lemma FormSurvivesReload(f: FormData, approvalStatus: string)
    ensures FormDataOf(Stored(f, approvalStatus)) == f
  {
  }

  /** A missing text field as an explicit '' and a missing list as []. */
  function Blanked(p: ProfileData): ProfileData {
    ProfileData(Some(p.phone.GetOr("")), Some(p.gender.GetOr("")), Some(p.experience.GetOr("")),
                Some(p.fee.GetOr("")), Some(p.qualification.GetOr("")),
                Some(p.specializations.GetOr([])), Some(p.languages.GetOr([])),
                Some(p.about.GetOr("")), p.approvalStatus)
  }

  /** Every missing field fills the form as an empty one does. */
  lemma MissingIsEmpty(p: ProfileData)
    ensures FormDataOf(p) == FormDataOf(Blanked(p))
  {
  }

  // ---------------------------------------------------------------------
  // Certificates
  // ---------------------------------------------------------------------

  /** The certificate URLs shown: one per fetched certificate, a failed fetch
      giving '' (None here), and the empty ones dropped in order. */
  function ShownCertificates(results: seq<Option<string>>): (r: seq<string>)
    ensures |r| <= |results|
    ensures forall i :: 0 <= i < |r| ==> r[i] != ""
    ensures forall u :: u in r <==> u != "" && Some(u) in results
  {
    if results == [] then []
    else
      var rest := ShownCertificates(results[1..]);
      assert results == [results[0]] + results[1..];
      match results[0]
      case Some(u) => if u != "" then [u] + rest else rest
      case None => rest
  }

  /** One fetch: its URL is shown when it succeeded with a non-empty URL,
      and nothing otherwise. */
  lemma ShownCertificatesOne(result: Option<string>)
    ensures ShownCertificates([result])
            == if result.Some? && result.value != "" then [result.value] else []
  {
    assert [result][1..] == [];
  }

  /** The shown URLs keep the order of the fetches: the shown URLs of two
      batches of fetches are those of the first followed by those of the
      second, whatever failed in either. */
  lemma {:induction false} ShownCertificatesAppend(a: seq<Option<string>>, b: seq<Option<string>>)
    ensures ShownCertificates(a + b) == ShownCertificates(a) + ShownCertificates(b)
  {
    if a != [] {
      assert (a + b)[0] == a[0];
      assert (a + b)[1..] == a[1..] + b;
      ShownCertificatesAppend(a[1..], b);
    } else {
      assert a + b == b;
    }
  }

  /** When every fetch succeeds, every certificate is shown in its place. */
  lemma {:induction false} AllFetchedShown(urls: seq<string>)
    requires forall i :: 0 <= i < |urls| ==> urls[i] != ""
    ensures ShownCertificates(seq(|urls|, i requires 0 <= i < |urls| => Some(urls[i]))) == urls
  {
    if urls != [] {
      var results := seq(|urls|, i requires 0 <= i < |urls| => Some(urls[i]));
      assert results[1..] == seq(|urls| - 1, i requires 0 <= i < |urls| - 1 => Some(urls[1..][i]));
      AllFetchedShown(urls[1..]);
    }
  }

  /** nextCertificate: the last certificate wraps to the first. */
  function NextIndex(i: int, n: int): int {
    if i == n - 1 then 0 else i + 1
  }

  /** previousCertificate: the first certificate wraps to the last. */
  function PreviousIndex(i: int, n: int): int {
    if i == 0 then n - 1 else i - 1
  }

  /** Within a list of `n` certificates, both steps stay within the list and
      each undoes the other. */
  lemma CarouselSteps(i: int, n: int)
    requires 0 <= i < n
    ensures 0 <= NextIndex(i, n) < n && 0 <= PreviousIndex(i, n) < n
    ensures PreviousIndex(NextIndex(i, n), n) == i
    ensures NextIndex(PreviousIndex(i, n), n) == i
  {
  }

  /** From a position past the end of the list, next never wraps: it moves
      further out. */
  lemma NextPastTheEnd(i: int, n: int)
    requires i >= n
    ensures NextIndex(i, n) == i + 1 > n
  {
  }

  // ---------------------------------------------------------------------
  // Approval badge
  // ---------------------------------------------------------------------

  datatype Badge = Verified | UnderVerification | RejectedBadge | PendingBadge

  /** getApprovalStatusBadge: the three decided statuses have their own
      badge; 'Pending' and every other value show Pending. */
  function ApprovalBadge(status: string): (b: Badge)
    ensures b == Verified <==> status == "Approved"
    ensures b == UnderVerification <==> status == "Requested"
    ensures b == RejectedBadge <==> status == "Rejected"
    ensures b == PendingBadge <==> status !in {"Approved", "Requested", "Rejected"}
  {
    match status
    case "Approved" => Verified
    case "Requested" => UnderVerification
    case "Rejected" => RejectedBadge
    case _ => PendingBadge
  }

  // ---------------------------------------------------------------------
  // The page state
  // ---------------------------------------------------------------------

  /** The form, the two input boxes, the certificate URLs and the carousel
      position. */
  class ProfilePage {
    var formData: FormData
    var specializationInput: string
    var languageInput: string
    var certificateUrls: seq<string>
    var currentCertIndex: int

    /** The carousel shows a certificate that exists. */
    ghost predicate Valid()
      reads this
    {
      certificateUrls != [] ==> 0 <= currentCertIndex < |certificateUrls|
    }

    constructor ()
      ensures formData == FormData("", "", "", "", "", [], [], "")
      ensures specializationInput == "" && languageInput == ""
      ensures certificateUrls == [] && currentCertIndex == 0
      ensures Valid()
    {
      formData := FormData("", "", "", "", "", [], [], "");
      specializationInput := "";
      languageInput := "";
      certificateUrls := [];
      currentCertIndex := 0;
    }

    method HandleAddSpecialization()
      requires Valid()
      modifies this
      ensures var r := AddTag(old(formData.specializations), old(specializationInput));
        formData == old(formData).(specializations := r.0) && specializationInput == r.1
      ensures languageInput == old(languageInput) && certificateUrls == old(certificateUrls)
      ensures currentCertIndex == old(currentCertIndex)
      ensures Distinct(old(formData.specializations)) ==> Distinct(formData.specializations)
      ensures Valid()
    {
      if Distinct(formData.specializations) {
        AddTagKeepsDistinct(formData.specializations, specializationInput);
      }
      var r := AddTag(formData.specializations, specializationInput);
      formData := formData.(specializations := r.0);
      specializationInput := r.1;
    }

    method HandleRemoveSpecialization(spec: string)
      requires Valid()
      modifies this
      ensures formData == old(formData).(specializations := RemoveTag(old(formData.specializations), spec))
      ensures specializationInput == old(specializationInput) && languageInput == old(languageInput)
      ensures certificateUrls == old(certificateUrls) && currentCertIndex == old(currentCertIndex)
      ensures Distinct(old(formData.specializations)) ==> Distinct(formData.specializations)
      ensures Valid()
    {
      if Distinct(formData.specializations) {
        FilterDistinct(formData.specializations, (x: string) => x != spec);
      }
      formData := formData.(specializations := RemoveTag(formData.specializations, spec));
    }

    method HandleAddLanguage()
      requires Valid()
      modifies this
      ensures var r := AddTag(old(formData.languages), old(languageInput));
        formData == old(formData).(languages := r.0) && languageInput == r.1
      ensures specializationInput == old(specializationInput) && certificateUrls == old(certificateUrls)
      ensures currentCertIndex == old(currentCertIndex)
      ensures Distinct(old(formData.languages)) ==> Distinct(formData.languages)
      ensures Valid()
    {
      if Distinct(formData.languages) {
        AddTagKeepsDistinct(formData.languages, languageInput);
      }
      var r := AddTag(formData.languages, languageInput);
      formData := formData.(languages := r.0);
      languageInput := r.1;
    }

    method HandleRemoveLanguage(lang: string)
      requires Valid()
      modifies this
      ensures formData == old(formData).(languages := RemoveTag(old(formData.languages), lang))
      ensures specializationInput == old(specializationInput) && languageInput == old(languageInput)
      ensures certificateUrls == old(certificateUrls) && currentCertIndex == old(currentCertIndex)
      ensures Distinct(old(formData.languages)) ==> Distinct(formData.languages)
      ensures Valid()
    {
      if Distinct(formData.languages) {
        FilterDistinct(formData.languages, (x: string) => x != lang);
      }
      formData := formData.(languages := RemoveTag(formData.languages, lang));
    }

    /** The arrows are shown only for two or more certificates. */
    method NextCertificate()
      requires Valid() && |certificateUrls| > 1
      modifies this
      ensures currentCertIndex == NextIndex(old(currentCertIndex), |certificateUrls|)
      ensures formData == old(formData) && certificateUrls == old(certificateUrls)
      ensures specializationInput == old(specializationInput) && languageInput == old(languageInput)
      ensures Valid()
    {
      CarouselSteps(currentCertIndex, |certificateUrls|);
      currentCertIndex := NextIndex(currentCertIndex, |certificateUrls|);
    }

    method PreviousCertificate()
      requires Valid() && |certificateUrls| > 1
      modifies this
      ensures currentCertIndex == PreviousIndex(old(currentCertIndex), |certificateUrls|)
      ensures formData == old(formData) && certificateUrls == old(certificateUrls)
      ensures specializationInput == old(specializationInput) && languageInput == old(languageInput)
      ensures Valid()
    {
      CarouselSteps(currentCertIndex, |certificateUrls|);
      currentCertIndex := PreviousIndex(currentCertIndex, |certificateUrls|);
    }

    /** An indicator dot: one per certificate, so `idx` is a position. */
    method SelectCertificate(idx: nat)
      requires Valid() && idx < |certificateUrls|
      modifies this
      ensures currentCertIndex == idx
      ensures formData == old(formData) && certificateUrls == old(certificateUrls)
      ensures specializationInput == old(specializationInput) && languageInput == old(languageInput)
      ensures Valid()
    {
      currentCertIndex := idx;
    }

    /** fetchProfile as written: the form is refilled and, when the profile
        lists certificates, the shown URLs are replaced; the carousel
        position is left where it was. */
    method ReceiveProfileAsWritten(p: ProfileData, certificates: seq<Option<string>>)
      modifies this
      ensures formData == FormDataOf(p)
      ensures certificateUrls == if certificates != [] then ShownCertificates(certificates)
                                 else old(certificateUrls)
      ensures currentCertIndex == old(currentCertIndex)
      ensures specializationInput == old(specializationInput) && languageInput == old(languageInput)
    {
      formData := FormDataOf(p);
      if certificates != [] {
        certificateUrls := ShownCertificates(certificates);
      }
    }

    /** fetchProfile with the carousel moved back to the first certificate
        whenever the URLs are replaced. */
    method ReceiveProfile(p: ProfileData, certificates: seq<Option<string>>)
      requires Valid()
      modifies this
      ensures formData == FormDataOf(p)
      ensures certificateUrls == if certificates != [] then ShownCertificates(certificates)
                                 else old(certificateUrls)
      ensures currentCertIndex == if certificates != [] then 0 else old(currentCertIndex)
      ensures specializationInput == old(specializationInput) && languageInput == old(languageInput)
      ensures Valid()
    {
      formData := FormDataOf(p);
      if certificates != [] {
        certificateUrls := ShownCertificates(certificates);
        currentCertIndex := 0;
      }
    }
  }

  /** As written: on the third of three certificates, a reload that leaves
      two moves "next" to a third position that does not exist. */
  method CarouselAfterReloadAsWritten() returns (index: int, count: int)
    ensures index == 3 && count == 2
  {
    var page := new ProfilePage();
    page.ReceiveProfileAsWritten(ProfileData(None, None, None, None, None, None, None, None, "Approved"),
                                 [Some("a"), Some("b"), Some("c")]);
    page.SelectCertificate(2);
    page.ReceiveProfileAsWritten(ProfileData(None, None, None, None, None, None, None, None, "Approved"),
                                 [Some("a"), Some("b")]);
    index := page.currentCertIndex;
    if |page.certificateUrls| > 1 {
      NextPastTheEnd(index, |page.certificateUrls|);
      index := NextIndex(index, |page.certificateUrls|);
    }
    count := |page.certificateUrls|;
  }

  /** Corrected: the same sequence of events leaves the carousel on the
      second of the two certificates. */
  method CarouselAfterReload() returns (index: int, count: int)
    ensures index == 1 && count == 2
  {
    var page := new ProfilePage();
    var empty := ProfileData(None, None, None, None, None, None, None, None, "Approved");
    page.ReceiveProfile(empty, [Some("a"), Some("b"), Some("c")]);
    page.SelectCertificate(2);
    page.ReceiveProfile(empty, [Some("a"), Some("b")]);
    page.NextCertificate();
    index := page.currentCertIndex;
    count := |page.certificateUrls|;
  }
}
