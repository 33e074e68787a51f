/** The client's booking flow after the intake chat (BookingFlow): the
    suggested therapists, the budget and availability preferences, the guard
    of Complete Booking with its session fee, and the steps of the flow.

    The component keeps `selectedTherapistId` at null (it has no setter) and
    no handler ever moves to the preferences step, so from the first render
    the flow stays on the confirmation step; the lemmas and
    `StepsFromStart` state this. */
module Booking {
  import opened Text
  import opened Collections

  datatype Step = Confirmation | PreferencesStep | Success

  /** The three budget options. */
  datatype Budget = Under1500 | From1500To2000 | Over2000

  /** The option values the buttons store. */
  function BudgetValue(b: Budget): string {
    match b
    case Under1500 => "under_1500"
    case From1500To2000 => "1500_2000"
    case Over2000 => "over_2000"
  }

  /** The availability windows a client can tick. */
  datatype Window = WeekdayMornings | WeekdayEvenings | WeekendMornings | WeekendAfternoons | AnyTime

  datatype Preferences = Preferences(budget: Option<Budget>, availability: seq<Window>)

  /** A suggested therapist, reduced to what the flow reads. */
  datatype Therapist = Therapist(id: string, name: string)

  /** What the success view shows; the appointment time, a week from the
      clock, is left out. */
  datatype BookingData = BookingData(therapistName: string, mode: string, sessionFee: int)

  // ---------------------------------------------------------------------
  // Suggestions
  // ---------------------------------------------------------------------

  /** `therapists[0]`, absent for an empty list. */
  function Primary(ts: seq<Therapist>): (r: Option<Therapist>)
    ensures r.None? <==> ts == []
    ensures r.Some? ==> r.value == ts[0]
  {
    if ts == [] then None else Some(ts[0])
  }

  /** `therapists.slice(1, 3)`: the second and third suggestions, as many of
      them as exist. */
  function Alternatives(ts: seq<Therapist>): (r: seq<Therapist>)
    ensures |r| <= 2
    ensures |r| == if |ts| <= 1 then 0 else if |ts| == 2 then 1 else 2
    ensures forall i :: 0 <= i < |r| ==> r[i] == ts[i + 1]
  {
    if |ts| <= 1 then [] else if |ts| == 2 then ts[1..2] else ts[1..3]
  }

  /** With distinct ids the primary therapist is never offered again as an
      alternative. */
  lemma PrimaryNotAlternative(ts: seq<Therapist>)
    requires forall i, j :: 0 <= i < j < |ts| ==> ts[i].id != ts[j].id
    ensures forall t :: t in Alternatives(ts) ==> Primary(ts).Some? && t.id != Primary(ts).value.id
  {
    var alt := Alternatives(ts);
    forall t | t in alt
      ensures Primary(ts).Some? && t.id != Primary(ts).value.id
    {
      var i :| 0 <= i < |alt| && alt[i] == t;
      assert t == ts[i + 1];
      assert ts[0].id != ts[i + 1].id;
    }
  }

  // ---------------------------------------------------------------------
  // Preferences
  // ---------------------------------------------------------------------

  /** toggleAvailability: a ticked window is removed, an unticked one
      appended. */
  function ToggleAvailability(av: seq<Window>, w: Window): (r: seq<Window>)
    ensures w in r <==> w !in av
    ensures forall x :: x != w ==> (x in r <==> x in av)
  {
    if w in av then Filter(av, (x: Window) => x != w) else av + [w]
  }

  /** Ticking a window twice gives back the same windows. */
  lemma ToggleAvailabilityTwice(av: seq<Window>, w: Window)
    ensures ToSet(ToggleAvailability(ToggleAvailability(av, w), w)) == ToSet(av)
  {
  }

  /** Toggling never ticks a window twice. */
  lemma ToggleAvailabilityDistinct(av: seq<Window>, w: Window)
    requires Distinct(av)
    ensures Distinct(ToggleAvailability(av, w))
  {
    if w in av {
      FilterDistinct(av, (x: Window) => x != w);
    } else {
      DistinctSnoc(av, w);
    }
  }

  /** isPreferencesComplete, which enables Complete Booking. */
  predicate PreferencesComplete(p: Preferences) {
    p.budget.Some? && |p.availability| > 0
  }

  /** handleCompleteBooking's guard: a selected therapist id (non-empty, as a
      truthy string), a budget and at least one window. */
  predicate BookingProceeds(selected: Option<string>, p: Preferences) {
    selected.Some? && selected.value != "" && p.budget.Some? && |p.availability| > 0
  }

  /** The guard is stricter than the button: it also needs a therapist, so an
      enabled button can do nothing, but a booking never goes ahead with the
      button disabled. */
  lemma GuardImpliesComplete(selected: Option<string>, p: Preferences)
    ensures BookingProceeds(selected, p) ==> PreferencesComplete(p)
    ensures BookingProceeds(selected, p) <==> PreferencesComplete(p) && selected.Some? && selected.value != ""
    ensures selected.None? ==> !BookingProceeds(selected, p)
  {
  }

  // ---------------------------------------------------------------------
  // Session fee
  // ---------------------------------------------------------------------

  /** The longest run of digits at the start of `s`. */
  function LeadingDigits(s: string): (r: string)
    ensures |r| <= |s| && r == s[..|r|] && AllDigits(r)
    ensures |r| == |s| || !IsDigit(s[|r|])
  {
    if s != [] && IsDigit(s[0]) then [s[0]] + LeadingDigits(s[1..]) else []
  }

  /** `s.split(sep)[0]`: the text before the first `sep`, or all of it. */
  function FirstField(s: string, sep: char): (r: string)
    ensures |r| <= |s| && r == s[..|r|] && sep !in r
    ensures |r| == |s| || s[|r|] == sep
    ensures s != [] && s[0] != sep ==> r != [] && r[0] == s[0]
  {
    if s == [] || s[0] == sep then [] else [s[0]] + FirstField(s[1..], sep)
  }

  /** `parseInt(s)` without a radix, read as decimal: leading white space, an
      optional sign, then the digits that follow; None (NaN) when there are
      none. A "0x" prefix, which `parseInt` reads as hexadecimal, is not
      modelled; no budget value has one. */
  function ParseInt(s: string): (r: Option<int>)
    ensures s != [] && IsAsciiLetter(s[0]) ==> r.None?
  {
    var t := s[LeadingSpaces(s)..];
    var negative := t != [] && t[0] == '-';
    var unsigned := if t != [] && (t[0] == '-' || t[0] == '+') then t[1..] else t;
    var digits := LeadingDigits(unsigned);
    var v: int := DecimalValue(digits);
    if digits == [] then None else Some(if negative then -v else v)
  }

  lemma LeadingDigitsOfDigits(s: string)
    requires AllDigits(s)
    ensures LeadingDigits(s) == s
  {
  }

  /** A string of digits parses to its decimal value. */
  lemma ParseIntOfDigits(s: string)
    requires s != [] && AllDigits(s)
    ensures ParseInt(s) == Some(DecimalValue(s))
  {
    assert !IsSpace(s[0]);
    assert s[LeadingSpaces(s)..] == s;
    LeadingDigitsOfDigits(s);
  }

  const DefaultFee: int := 1500

  /** `parseInt(budget.split('_')[0]) || 1500`: NaN and 0 both fall back. */
  function SessionFee(budget: string): (fee: int)
    ensures fee != 0
  {
    var n := ParseInt(FirstField(budget, '_'));
    if n.Some? && n.value != 0 then n.value else DefaultFee
  }

  /** Digits followed by '_' form the first field. */
  lemma FirstFieldBeforeSeparator(d: string, rest: string)
    requires AllDigits(d)
    ensures FirstField(d + "_" + rest, '_') == d
  {
    var s := d + "_" + rest;
    var f := FirstField(s, '_');
    assert s[|d|] == '_';
    assert forall i :: 0 <= i < |d| ==> s[i] == d[i] && s[i] != '_';
  }

  /** A budget value written "<n>_…" with n > 0 is charged n. */
  lemma SessionFeeReadsLeadingNumber(n: nat, rest: string)
    requires n > 0
    ensures SessionFee(NatToString(n) + "_" + rest) == n
  {
    var d := NatToString(n);
    FirstFieldBeforeSeparator(d, rest);
    ParseIntOfDigits(d);
    DecimalRoundTrip(n);
  }

  /** A value whose first field starts with a letter is charged the default. */
  lemma SessionFeeOfWordFallsBack(budget: string)
    requires budget != [] && IsAsciiLetter(budget[0])
    ensures SessionFee(budget) == DefaultFee
  {
    assert budget[0] != '_';
  }

  /** Every budget option is charged 1500: "under" and "over" are not
      numbers, and "1500" is 1500. */
  lemma EveryBudgetCosts1500(b: Budget)
    ensures SessionFee(BudgetValue(b)) == 1500
  {
    match b
    case Under1500 =>
      SessionFeeOfWordFallsBack(BudgetValue(b));
    case Over2000 =>
      SessionFeeOfWordFallsBack(BudgetValue(b));
    case From1500To2000 =>
      assert NatToString(1500) == "1500" by {
        assert NatToString(150) == "150" by {
          assert NatToString(15) == "15" by {
            assert NatToString(1) == "1";
          }
        }
      }
      assert BudgetValue(b) == NatToString(1500) + "_" + "2000";
      SessionFeeReadsLeadingNumber(1500, "2000");
  }

  // ---------------------------------------------------------------------
  // The flow
  // ---------------------------------------------------------------------

  datatype View = ConfirmationView | PreferencesView | SuccessView(data: BookingData) | Blank

  /** Which view renders: the success view only with booking data, and
      nothing otherwise. */
  function ViewOf(step: Step, bookingData: Option<BookingData>): (v: View)
    ensures v.SuccessView? <==> step == Success && bookingData.Some?
    ensures v == Blank <==> step == Success && bookingData.None?
  {
    match step
    case Confirmation => ConfirmationView
    case PreferencesStep => PreferencesView
    case Success => if bookingData.Some? then SuccessView(bookingData.value) else Blank
  }

  /** The name for the success view: the selected therapist's, or
      'Therapist' when none has that id or the name is empty. */
  function TherapistName(ts: seq<Therapist>, id: string): (r: string)
    ensures r != []
    ensures (forall t :: t in ts ==> t.id != id) ==> r == "Therapist"
    ensures ts != [] && ts[0].id == id && ts[0].name != [] ==> r == ts[0].name
  {
    if ts == [] then "Therapist"
    else if ts[0].id == id then OrDefault(Some(ts[0].name), "Therapist")
    else TherapistName(ts[1..], id)
  }

  /** `find` takes the first therapist with the id: the name shown is that
      therapist's name, or 'Therapist' when the name is empty. */
  lemma {:induction false} TherapistNameFirstMatch(ts: seq<Therapist>, id: string, k: nat)
    requires k < |ts| && ts[k].id == id
    requires forall j :: 0 <= j < k ==> ts[j].id != id
    ensures TherapistName(ts, id) == OrDefault(Some(ts[k].name), "Therapist")
  {
    if k > 0 {
      assert ts[0].id != id;
      assert ts[1..][k - 1] == ts[k];
      TherapistNameFirstMatch(ts[1..], id, k - 1);
    }
  }

  class BookingFlow {
    var step: Step
    const selectedTherapistId: Option<string>
    var preferences: Preferences
    var bookingData: Option<BookingData>

    /** The states the component can be in. */
    predicate Valid()
      reads this
    {
      step == Success ==> bookingData.Some?
    }

    constructor ()
      ensures Valid()
      ensures step == Confirmation && selectedTherapistId == None
      ensures preferences == Preferences(None, []) && bookingData == None
    {
      step := Confirmation;
      selectedTherapistId := None;
      preferences := Preferences(None, []);
      bookingData := None;
    }

    /** A budget button. */
    method SelectBudget(b: Budget)
      requires Valid()
      modifies this
      ensures Valid()
      ensures preferences == old(preferences).(budget := Some(b))
      ensures step == old(step) && bookingData == old(bookingData)
    {
      preferences := preferences.(budget := Some(b));
    }

    /** An availability button. */
    method ToggleWindow(w: Window)
      requires Valid()
      modifies this
      ensures Valid()
      ensures preferences == old(preferences).(availability := ToggleAvailability(old(preferences.availability), w))
      ensures step == old(step) && bookingData == old(bookingData)
    {
      preferences := preferences.(availability := ToggleAvailability(preferences.availability, w));
    }

    /** Back, on the preferences step. */
    method Back()
      requires Valid() && step == PreferencesStep
      modifies this
      ensures Valid()
      ensures step == Confirmation
      ensures preferences == old(preferences) && bookingData == old(bookingData)
    {
      step := Confirmation;
    }

    /** handleCompleteBooking: when the guard holds, the booking data is set
        and the flow shows success; `completed` reports the call of
        onBookingComplete. Otherwise nothing changes. */
    method CompleteBooking(ts: seq<Therapist>) returns (completed: bool)
      requires Valid()
      modifies this
      ensures Valid()
      ensures completed <==> BookingProceeds(selectedTherapistId, old(preferences))
      ensures completed ==> step == Success && bookingData.Some?
                            && bookingData.value.sessionFee == SessionFee(BudgetValue(old(preferences).budget.value))
                            && bookingData.value.therapistName == TherapistName(ts, selectedTherapistId.value)
                            && bookingData.value.mode == "video"
      ensures !completed ==> step == old(step) && bookingData == old(bookingData)
      ensures preferences == old(preferences)
    {
      completed := BookingProceeds(selectedTherapistId, preferences);
      if completed {
        var name := TherapistName(ts, selectedTherapistId.value);
        bookingData := Some(BookingData(name, "video", SessionFee(BudgetValue(preferences.budget.value))));
        step := Success;
      }
    }
  }

  /** A user action on the flow. */
  datatype Action = PickBudget(b: Budget) | Tick(w: Window) | GoBack | Complete

  /** From the first render, any sequence of actions leaves the flow on the
      confirmation step with no booking data: the therapist id is never set,
      so Complete Booking never goes ahead, and no handler leads to the
      preferences step. */
  method StepsFromStart(ts: seq<Therapist>, actions: seq<Action>) returns (step: Step, data: Option<BookingData>)
    ensures step == Confirmation && data.None?
  {
    var flow := new BookingFlow();
    var k := 0;
    while k < |actions|
      invariant 0 <= k <= |actions|
      invariant flow.selectedTherapistId == None
      invariant flow.Valid() && flow.step == Confirmation && flow.bookingData.None?
    {
      match actions[k] {
        case PickBudget(b) => flow.SelectBudget(b);
        case Tick(w) => flow.ToggleWindow(w);
        case GoBack =>
          if flow.step == PreferencesStep {
            flow.Back();
          }
        case Complete =>
          var _ := flow.CompleteBooking(ts);
      }
      k := k + 1;
    }
    step, data := flow.step, flow.bookingData;
  }
}
