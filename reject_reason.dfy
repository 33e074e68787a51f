/** The rejection dialog of the job-application review page
    (JobApplicationDetail): the rules a rejection reason must meet, checked
    in a fixed order with the first failure reported, the dialog's reason and
    error fields, and when its buttons are enabled. */
module RejectReason {
  import opened Text

  const MinReasonLength: nat := 10
  const MaxReasonLength: nat := 500

  /** The message validateRejectReason records, one per rule. */
  datatype ReasonError =
    | Required
    | TooShort
    | TooLong
    | Repetitive
    | NoLetter
    | NotDescriptive
    | TooManyRepeats

  /** The character class `[a-zA-Z0-9!@#$%^&*(),.?":{}|<>]`. */
  predicate InRepeatClass(c: char) {
    IsAsciiLetter(c) || IsDigit(c) || c in "!@#$%^&*(),.?\":{}|<>"
  }

  /** `/^([class])\1+$/`: two or more copies of one character of the class
      and nothing else. */
  predicate IsRepetitive(t: string) {
    |t| >= 2 && InRepeatClass(t[0]) && forall i :: 0 <= i < |t| ==> t[i] == t[0]
  }

  /** `/[a-zA-Z]/` */
  predicate HasAsciiLetter(t: string) {
    exists i :: 0 <= i < |t| && IsAsciiLetter(t[i])
  }

  /** Position `i` starts a maximal run of white space. */
  predicate RunStart(s: string, i: nat)
    requires i < |s|
  {
    IsSpace(s[i]) && (i == 0 || !IsSpace(s[i - 1]))
  }

  /** Number of maximal runs of white space in `s`. */
  function SpaceRuns(s: string): nat {
    if s == [] then 0
    else SpaceRuns(s[..|s| - 1]) + (if RunStart(s, |s| - 1) then 1 else 0)
  }

  /** `s.split(/\s+/).length`: every maximal run of white space is one cut. */
  function WordCount(s: string): nat {
    SpaceRuns(s) + 1
  }

  /** Five copies of one character other than a line terminator start at
      position `i`. */
  predicate RunOfFiveAt(t: string, i: nat) {
    i + 5 <= |t| && !IsLineTerminator(t[i])
    && t[i + 1] == t[i] && t[i + 2] == t[i] && t[i + 3] == t[i] && t[i + 4] == t[i]
  }

  /** `/(.)\1{4,}/`: some character other than a line terminator occurs five
      times in a row. */
  predicate HasRunOfFive(t: string) {
    exists i: nat :: i < |t| && RunOfFiveAt(t, i)
  }

  /** What an acceptable reason is, stated without the order of the checks:
      trimmed, it has 10 to 500 characters, an ASCII letter, white space
      between two words, and no character five times in a row. */
  predicate ReasonAcceptable(reason: string) {
    TrimmedAcceptable(Trim(reason))
  }

  predicate TrimmedAcceptable(t: string) {
    MinReasonLength <= |t| <= MaxReasonLength && HasAsciiLetter(t) && HasSpace(t)
    && !HasRunOfFive(t)
  }

  /** There is a second word exactly when there is white space. */
  lemma {:induction false} WordCountSpace(s: string)
    ensures WordCount(s) >= 2 <==> HasSpace(s)
  {
    if s != [] {
      var p := s[..|s| - 1];
      WordCountSpace(p);
      if HasSpace(p) {
        var i :| 0 <= i < |p| && IsSpace(p[i]);
        assert IsSpace(s[i]);
      }
      if HasSpace(s) && !HasSpace(p) {
        var i :| 0 <= i < |s| && IsSpace(s[i]);
        assert i == |s| - 1;
        assert RunStart(s, |s| - 1);
      }
    }
  }

  /** A repetitive reason of ten or more characters also has a run of five,
      so the repetition rule never decides whether a reason is accepted. */
  lemma RepetitiveHasRunOfFive(t: string)
    requires IsRepetitive(t) && |t| >= MinReasonLength
    ensures HasRunOfFive(t)
  {
    assert !IsLineTerminator(t[0]);
    assert t[1] == t[0] && t[2] == t[0] && t[3] == t[0] && t[4] == t[0];
    assert RunOfFiveAt(t, 0);
  }

  /** The checks of validateRejectReason on the trimmed reason `t`, in the
      source's order: None when all pass, otherwise the first failing rule. */
  function CheckTrimmed(t: string): Option<ReasonError> {
    if t == [] then Some(Required)
    else if |t| < MinReasonLength then Some(TooShort)
    else if |t| > MaxReasonLength then Some(TooLong)
    else if IsRepetitive(t) then Some(Repetitive)
    else if !HasAsciiLetter(t) then Some(NoLetter)
    else if WordCount(t) < 2 then Some(NotDescriptive)
    else if HasRunOfFive(t) then Some(TooManyRepeats)
    else None
  }

  /** The rule each message stands for, on the trimmed reason `t`, each
      stated on its own, without the order in which they are checked. */
  predicate Fails(t: string, e: ReasonError) {
    match e
    case Required => t == []
    case TooShort => |t| < MinReasonLength
    case TooLong => |t| > MaxReasonLength
    case Repetitive => IsRepetitive(t)
    case NoLetter => !HasAsciiLetter(t)
    case NotDescriptive => !HasSpace(t)
    case TooManyRepeats => HasRunOfFive(t)
  }

  /** The position of each rule in the order validateRejectReason checks. */
  function Rank(e: ReasonError): nat {
    match e
    case Required => 0
    case TooShort => 1
    case TooLong => 2
    case Repetitive => 3
    case NoLetter => 4
    case NotDescriptive => 5
    case TooManyRepeats => 6
  }

  /** validateRejectReason: trims the reason and checks it. The message
      recorded is that of the first rule, in checking order, that the trimmed
      reason breaks; none when it breaks none. */
  function ValidateRejectReason(reason: string): (r: Option<ReasonError>)
    ensures r == Some(Required) <==> AllSpace(reason)
    ensures r == Some(TooShort) <==> !AllSpace(reason) && |Trim(reason)| < MinReasonLength
    ensures r == Some(TooLong) <==> |Trim(reason)| > MaxReasonLength
    ensures r.Some? ==> Fails(Trim(reason), r.value)
                        && forall e :: Rank(e) < Rank(r.value) ==> !Fails(Trim(reason), e)
    ensures r.None? ==> forall e :: !Fails(Trim(reason), e)
  {
    WordCountSpace(Trim(reason));
    CheckTrimmed(Trim(reason))
  }

  /** The ordered checks pass exactly the acceptable trimmed texts: the
      repetition rule and the word count add nothing to the other rules. */
  lemma CheckTrimmedAccepts(t: string)
    ensures CheckTrimmed(t).None? <==> TrimmedAcceptable(t)
  {
    WordCountSpace(t);
    if t == [] || |t| < MinReasonLength || |t| > MaxReasonLength {
    } else if IsRepetitive(t) {
      RepetitiveHasRunOfFive(t);
    }
  }

  /** validateRejectReason passes exactly the acceptable reasons. */
  lemma ValidateRejectReasonAccepts(reason: string)
    ensures ValidateRejectReason(reason).None? <==> ReasonAcceptable(reason)
  {
    CheckTrimmedAccepts(Trim(reason));
  }

  /** The verdict depends only on the trimmed reason, so the trimmed text
      that is sent passes exactly when the typed text did. */
  lemma ValidateTrimmed(reason: string)
    ensures ValidateRejectReason(Trim(reason)) == ValidateRejectReason(reason)
  {
    TrimIdempotent(reason);
  }

  /** A reason typed into the text area, which holds at most 500
      characters, is never refused as too long. */
  lemma TextAreaNeverTooLong(reason: string)
    requires |reason| <= MaxReasonLength
    ensures ValidateRejectReason(reason) != Some(TooLong)
  {
  }

  /** The Reject confirm button: disabled while the trimmed reason is empty
      or an error is shown. */
  function ConfirmDisabled(reason: string, error: Option<ReasonError>): (disabled: bool)
    ensures disabled <==> ValidateRejectReason(reason) == Some(Required) || error.Some?
  {
    Trim(reason) == [] || error.Some?
  }

  /** The confirm button can be enabled for a reason that fails the rules
      (typed without leaving the field, so never checked); submitting checks
      again. */
  lemma ConfirmEnabledForUncheckedReason()
    ensures !ConfirmDisabled("too short", None)
    ensures ValidateRejectReason("too short") == Some(TooShort)
  {
    var s := "too short";
    assert !IsSpace(s[0]) && !IsSpace(s[|s| - 1]);
    TrimOfTrimmed(s);
  }

  /** Approve and Reject are offered only while the application is still
      requested, and neither while a decision is being submitted. */
  function ActionsEnabled(approvalStatus: string, isSubmitting: bool): (enabled: bool)
    ensures enabled ==> approvalStatus == "Requested"
    ensures approvalStatus == "Approved" || approvalStatus == "Rejected" ==> !enabled
    ensures isSubmitting ==> !enabled
    ensures approvalStatus == "Requested" && !isSubmitting ==> enabled
  {
    var isActionDisabled := approvalStatus != "Requested";
    !isActionDisabled && !isSubmitting
  }

  /** The reject dialog: whether it is open, the reason typed and the error
      shown (None for the empty message). */
  class RejectDialog {
    var open: bool
    var reason: string
    var error: Option<ReasonError>

    /** An error on screen is always the verdict on the current reason. */
    ghost predicate Valid()
      reads this
    {
      error.Some? ==> error == ValidateRejectReason(reason)
    }

    constructor ()
      ensures !open && reason == "" && error.None? && Valid()
    {
      open := false;
      reason := "";
      error := None;
    }

    /** The Reject Application button. */
    method Open()
      modifies this
      requires Valid()
      ensures open && reason == old(reason) && error == old(error) && Valid()
    {
      open := true;
    }

    /** validateRejectReason applied to `text`: records the verdict as the
        error and answers whether the text passed. */
    method Validate(text: string) returns (ok: bool)
      modifies this
      ensures error == ValidateRejectReason(text) && (ok <==> error.None?)
      ensures open == old(open) && reason == old(reason)
    {
      error := ValidateRejectReason(text);
      ok := error.None?;
    }

    /** Typing: the reason is replaced and, only while an error is shown,
        checked again. */
    method OnChange(newValue: string)
      requires Valid()
      modifies this
      ensures reason == newValue && open == old(open)
      ensures old(error).Some? ==> error == ValidateRejectReason(newValue)
      ensures old(error).None? ==> error.None?
      ensures Valid()
    {
      reason := newValue;
      if error.Some? {
        var _ := Validate(newValue);
      }
    }

    /** Leaving the text area checks the reason. */
    method OnBlur()
      requires Valid()
      modifies this
      ensures reason == old(reason) && open == old(open)
      ensures error == ValidateRejectReason(reason) && Valid()
    {
      var _ := Validate(reason);
    }

    /** Close, Cancel, or the end of a submission: the dialog closes and the
        reason and error are cleared. */
    method Close()
      modifies this
      ensures !open && reason == "" && error.None? && Valid()
    {
      open := false;
      reason := "";
      error := None;
    }

    /** The local part of handleReject: without an application id nothing
        happens; otherwise the reason is checked and, when it passes, the
        trimmed reason is what the status update carries. */
    method HandleReject(hasApplicationId: bool) returns (sent: Option<string>)
      requires Valid()
      modifies this
      ensures !hasApplicationId ==> sent.None? && reason == old(reason) && error == old(error)
      ensures hasApplicationId ==> error == ValidateRejectReason(reason)
      ensures sent.Some? <==> hasApplicationId && ReasonAcceptable(old(reason))
      ensures sent.Some? ==> sent.value == Trim(old(reason)) && ReasonAcceptable(sent.value)
      ensures reason == old(reason) && open == old(open) && Valid()
    {
      if !hasApplicationId {
        return None;
      }
      ValidateRejectReasonAccepts(reason);
      var ok := Validate(reason);
      if !ok {
        return None;
      }
      ValidateTrimmed(reason);
      ValidateRejectReasonAccepts(reason);
      ValidateRejectReasonAccepts(Trim(reason));
      sent := Some(Trim(reason));
    }
  }
}
