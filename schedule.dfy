/** The rules of the weekly availability editor (ManageSlots) on plain values:
    what a slot and a day are, the submit-time validation with its first
    failing rule, the overlap check on a day's start times, the guard applied
    while a start time is typed, and toggling a consultation mode. */
module Schedule {
  import opened Text
  import opened Collections
  import opened SlotTime
  import opened Overlap

  /** DAYS: the week as the editor lists it. */
  const Days: seq<string> :=
    ["Sunday", "Monday", "Tuesday", "Wednesday", "Thursday", "Friday", "Saturday"]

  datatype Mode = Video | Audio

  /** One bookable session: a start time ("" until picked), the consultation
      modes offered and the price. */
  datatype TimeSlot = TimeSlot(startTime: string, modes: seq<Mode>, price: real)

  datatype DayValue = DayValue(day: string, enabled: bool, slots: seq<TimeSlot>)

  /** Start times are unset or values of the time picker. */
  predicate WellFormedSlots(slots: seq<TimeSlot>) {
    forall i :: 0 <= i < |slots| ==> slots[i].startTime == "" || IsClockTime(slots[i].startTime)
  }

  predicate WellFormedSchedule(days: seq<DayValue>) {
    forall k :: 0 <= k < |days| ==> WellFormedSlots(days[k].slots)
  }

  predicate AllStartsSet(slots: seq<TimeSlot>) {
    forall i :: 0 <= i < |slots| ==> IsClockTime(slots[i].startTime)
  }

  function StartTimes(slots: seq<TimeSlot>): (r: seq<string>)
    ensures |r| == |slots| && forall i :: 0 <= i < |r| ==> r[i] == slots[i].startTime
  {
    seq(|slots|, i requires 0 <= i < |slots| => slots[i].startTime)
  }

  function StartMinutes(slots: seq<TimeSlot>): (r: seq<nat>)
    requires AllStartsSet(slots)
    ensures |r| == |slots|
    ensures forall i :: 0 <= i < |r| ==> r[i] == TimeToMinutes(slots[i].startTime)
  {
    seq(|slots|, i requires 0 <= i < |slots| => TimeToMinutes(slots[i].startTime))
  }

  // ---------------------------------------------------------------------
  // checkTimeSlotOverlap
  // ---------------------------------------------------------------------

  /** `a` and `b` are the start times of two different slots of the day, in
      time order, whose sessions share a minute. */
  predicate IsOverlapPair(slots: seq<TimeSlot>, a: string, b: string) {
    && IsClockTime(a) && IsClockTime(b)
    && TimeToMinutes(a) <= TimeToMinutes(b) && TooClose(TimeToMinutes(a), TimeToMinutes(b))
    && exists i, j :: 0 <= i < |slots| && 0 <= j < |slots| && i != j
                      && slots[i].startTime == a && slots[j].startTime == b
  }

  /** The outcome of the overlap check: the start times of the first two
      neighbours, in time order, whose sessions collide. */
  datatype OverlapReport = NoOverlap | Overlap(earlier: string, later: string)

  /** Neighbours among the first `n + 1` entries are at least a session apart. */
  predicate NeighboursApart(s: seq<int>, n: nat)
    requires n < |s|
  {
    forall k :: 0 <= k < n ==> s[k + 1] >= s[k] + FixedDuration
  }

  /** Sorting the day's minutes keeps the question of a collision and turns
      it into a question about neighbours. */
  /** `a` and `b` name sorted neighbours that collide, and every pair of
      neighbours before them is a session apart. */
  predicate FirstCollision(s: seq<nat>, a: string, b: string) {
    exists i :: 0 <= i < |s| - 1 && NeighboursApart(s, i) && s[i + 1] < s[i] + FixedDuration
                && a == Clock(s[i]) && b == Clock(s[i + 1])
  }

  lemma SortedMinutes(minutes: seq<nat>)
    requires |minutes| >= 1
    ensures |SortBy(minutes, Ascending)| == |minutes|
    ensures HasCloseStarts(minutes)
        <==> !NeighboursApart(SortBy(minutes, Ascending), |minutes| - 1)
  {
    var sorted := SortBy(minutes, Ascending);
    AscendingIsTotalPreorder();
    SortBySorted(minutes, Ascending);
    SortedCloseStarts(sorted);
    CloseStartsPermutation(minutes, sorted);
    CloseStartsPermutation(sorted, minutes);
  }

  /** Two colliding neighbours of the sorted minutes come from two slots of
      the day, whose picker values the minute counts give back. */
  lemma NeighboursReportPair(slots: seq<TimeSlot>, sorted: seq<nat>, i: nat)
    requires AllStartsSet(slots) && sorted == SortBy(StartMinutes(slots), Ascending)
    requires i + 1 < |sorted| && sorted[i + 1] < sorted[i] + FixedDuration
    ensures IsOverlapPair(slots, Clock(sorted[i]), Clock(sorted[i + 1]))
  {
    var minutes := StartMinutes(slots);
    AscendingIsTotalPreorder();
    SortBySorted(minutes, Ascending);
    NeighboursInOriginal(minutes, sorted, i);
    var a, b :| 0 <= a < |minutes| && 0 <= b < |minutes| && a != b
                && minutes[a] == sorted[i] && minutes[b] == sorted[i + 1];
    ClockRoundTrip(slots[a].startTime);
    ClockRoundTrip(slots[b].startTime);
  }

  /** checkTimeSlotOverlap: orders the day's start minutes and compares each
      with the next. Only the minutes take part in the comparison, so the
      minutes are sorted and each reported minute count is turned back into
      its picker value. */
  method CheckTimeSlotOverlap(slots: seq<TimeSlot>) returns (r: OverlapReport)
    requires AllStartsSet(slots)
    ensures r.NoOverlap? <==> !HasCloseStarts(StartMinutes(slots))
    ensures r.Overlap? ==> IsOverlapPair(slots, r.earlier, r.later)
    ensures r.Overlap? ==> FirstCollision(SortBy(StartMinutes(slots), Ascending), r.earlier, r.later)
  {
    if |slots| <= 1 {
      return NoOverlap;
    }
    var sorted := SortBy(StartMinutes(slots), Ascending);
    SortedMinutes(StartMinutes(slots));
    var i := 0;
    while i < |sorted| - 1
      invariant 0 <= i <= |sorted| - 1
      invariant NeighboursApart(sorted, i)
    {
      var currentStart := sorted[i];
      var currentEnd := currentStart + FixedDuration;
      var nextStart := sorted[i + 1];
      if nextStart < currentEnd {
        NeighboursReportPair(slots, sorted, i);
        r := Overlap(Clock(currentStart), Clock(nextStart));
        assert NeighboursApart(sorted, i) && sorted[i + 1] < sorted[i] + FixedDuration
               && r.earlier == Clock(sorted[i]) && r.later == Clock(sorted[i + 1]);
        return;
      }
      i := i + 1;
    }
    return NoOverlap;
  }

  // ---------------------------------------------------------------------
  // validateSchedule
  // ---------------------------------------------------------------------

  /** The rules each slot of an enabled day must meet: a start time, a price
      above zero, at least one mode, and an end before midnight. */
  predicate SlotAcceptable(s: TimeSlot)
    requires s.startTime == "" || IsClockTime(s.startTime)
  {
    s.startTime != "" && s.price > 0.0 && |s.modes| > 0
    && TimeToMinutes(s.startTime) + FixedDuration < MinutesPerDay
  }

  /** The first `n` slots meet the per-slot rules. */
  predicate SlotsAcceptable(slots: seq<TimeSlot>, n: nat)
    requires n <= |slots| && WellFormedSlots(slots)
  {
    forall i :: 0 <= i < n ==> SlotAcceptable(slots[i])
  }

  /** An enabled day is acceptable when it has slots, each slot meets the
      rules and no two sessions of the day share a minute. */
  predicate DayAcceptable(d: DayValue)
    requires WellFormedSlots(d.slots)
  {
    |d.slots| > 0 && SlotsAcceptable(d.slots, |d.slots|)
    && !HasCloseStarts(StartMinutes(d.slots))
  }

  /** The enabled days among the first `n` are acceptable. */
  predicate DaysAcceptable(days: seq<DayValue>, n: nat)
    requires n <= |days| && WellFormedSchedule(days)
  {
    forall k :: 0 <= k < n && days[k].enabled ==> DayAcceptable(days[k])
  }

  /** What saving demands: some day is enabled and every enabled day is acceptable. */
  predicate ScheduleAcceptable(days: seq<DayValue>)
    requires WellFormedSchedule(days)
  {
    (exists k :: 0 <= k < |days| && days[k].enabled) && DaysAcceptable(days, |days|)
  }

  /** The message validateSchedule shows, naming days and slots by position. */
  datatype ValidationError =
    | NoDaysEnabled
    | NoSlots(day: nat)
    | MissingStartTime(day: nat, slot: nat)
    | InvalidPrice(day: nat, slot: nat)
    | NoModes(day: nat, slot: nat)
    | EndsAfterMidnight(day: nat, slot: nat)
    | SlotsOverlap(day: nat, earlier: string, later: string)
    | DuplicateStartTimes(day: nat)

  datatype Validation = Accepted | Rejected(error: ValidationError)

  /** Day `k` is enabled and every enabled day before it is acceptable. */
  predicate FirstFailingDay(days: seq<DayValue>, k: nat)
    requires WellFormedSchedule(days)
  {
    k < |days| && days[k].enabled && DaysAcceptable(days, k)
  }

  /** Slot `i` of day `d` is its first slot to break a per-slot rule. */
  predicate FirstFailingSlot(d: DayValue, i: nat)
    requires WellFormedSlots(d.slots)
  {
    i < |d.slots| && SlotsAcceptable(d.slots, i)
  }

  /** The situation in which the checks of one enabled day report `e`: slot
      by slot in the order start time, price, modes, midnight; then the
      overlap check and the duplicate check on the whole day. */
  predicate DayExplains(d: DayValue, e: ValidationError)
    requires WellFormedSlots(d.slots)
  {
    match e
    case NoDaysEnabled => false
    case NoSlots(_) => d.slots == []
    case MissingStartTime(_, i) =>
      FirstFailingSlot(d, i) && d.slots[i].startTime == ""
    case InvalidPrice(_, i) =>
      FirstFailingSlot(d, i) && d.slots[i].startTime != "" && d.slots[i].price <= 0.0
    case NoModes(_, i) =>
      FirstFailingSlot(d, i) && d.slots[i].startTime != "" && d.slots[i].price > 0.0
      && d.slots[i].modes == []
    case EndsAfterMidnight(_, i) =>
      FirstFailingSlot(d, i) && d.slots[i].startTime != "" && d.slots[i].price > 0.0
      && d.slots[i].modes != []
      && TimeToMinutes(d.slots[i].startTime) + FixedDuration >= MinutesPerDay
    case SlotsOverlap(_, a, b) =>
      |d.slots| > 0 && SlotsAcceptable(d.slots, |d.slots|) && IsOverlapPair(d.slots, a, b)
    case DuplicateStartTimes(_) =>
      && |d.slots| > 0 && SlotsAcceptable(d.slots, |d.slots|)
      && !HasCloseStarts(StartMinutes(d.slots)) && !Distinct(StartTimes(d.slots))
  }

  /** The situation in which validateSchedule reports `e`: no day is enabled,
      or the days are tried in order and `e` is what the first enabled day
      that fails reports. */
  predicate Explains(days: seq<DayValue>, e: ValidationError)
    requires WellFormedSchedule(days)
  {
    if e.NoDaysEnabled? then forall k :: 0 <= k < |days| ==> !days[k].enabled
    else FirstFailingDay(days, e.day) && DayExplains(days[e.day], e)
  }

  predicate IsEnabled(d: DayValue) {
    d.enabled
  }

  /** The checks of validateSchedule on one enabled day, the `k`-th: None when
      the day is acceptable, otherwise the first rule it breaks. */
  method ValidateDay(day: DayValue, k: nat) returns (r: Option<ValidationError>)
    requires WellFormedSlots(day.slots)
    ensures r.None? <==> DayAcceptable(day)
    ensures r.Some? ==> !r.value.NoDaysEnabled? && r.value.day == k && DayExplains(day, r.value)
    ensures !(r.Some? && r.value.DuplicateStartTimes?)
  {
    if |day.slots| == 0 {
      return Some(NoSlots(k));
    }
    var i: nat := 0;
    while i < |day.slots|
      invariant 0 <= i <= |day.slots|
      invariant SlotsAcceptable(day.slots, i)
    {
      var slot := day.slots[i];
      if slot.startTime == "" {
        return Some(MissingStartTime(k, i));
      }
      if slot.price <= 0.0 {
        return Some(InvalidPrice(k, i));
      }
      if |slot.modes| == 0 {
        return Some(NoModes(k, i));
      }
      var startMinutes := TimeToMinutes(slot.startTime);
      var endMinutes := startMinutes + FixedDuration;
      if endMinutes >= MinutesPerDay {
        return Some(EndsAfterMidnight(k, i));
      }
      i := i + 1;
    }
    var overlapCheck := CheckTimeSlotOverlap(day.slots);
    if overlapCheck.Overlap? {
      return Some(SlotsOverlap(k, overlapCheck.earlier, overlapCheck.later));
    }
    var uniqueTimes := ToSet(StartTimes(day.slots));
    DuplicateCheckSubsumed(day.slots);
    if |uniqueTimes| != |day.slots| {
      assert false;
      return Some(DuplicateStartTimes(k));
    }
    return None;
  }

  /** validateSchedule: accepts exactly the acceptable schedules and
      otherwise reports the first rule broken. The duplicate-start-time rule
      never fires: two slots with the same start are already too close. */
  method ValidateSchedule(days: seq<DayValue>) returns (r: Validation)
    requires WellFormedSchedule(days)
    ensures r.Accepted? <==> ScheduleAcceptable(days)
    ensures r.Rejected? ==> Explains(days, r.error)
    ensures !(r.Rejected? && r.error.DuplicateStartTimes?)
  {
    var enabledDays := Filter(days, IsEnabled);
    EnabledDaysEmpty(days);
    if |enabledDays| == 0 {
      return Rejected(NoDaysEnabled);
    }
    var k: nat := 0;
    while k < |days|
      invariant 0 <= k <= |days|
      invariant DaysAcceptable(days, k)
    {
      if days[k].enabled {
        var fault := ValidateDay(days[k], k);
        if fault.Some? {
          return Rejected(fault.value);
        }
      }
      DaysAcceptableStep(days, k);
      k := k + 1;
    }
    return Accepted;
  }

  lemma DaysAcceptableStep(days: seq<DayValue>, k: nat)
    requires WellFormedSchedule(days) && k < |days| && DaysAcceptable(days, k)
    requires days[k].enabled ==> DayAcceptable(days[k])
    ensures DaysAcceptable(days, k + 1)
  {
  }

  /** `enabledDays.length === 0` exactly when no day is enabled. */
  lemma EnabledDaysEmpty(days: seq<DayValue>)
    ensures |Filter(days, IsEnabled)| == 0 <==> forall k :: 0 <= k < |days| ==> !days[k].enabled
  {
    var e := Filter(days, IsEnabled);
    if |e| != 0 {
      assert e[0] in days;
    } else {
      assert forall k :: 0 <= k < |days| ==> days[k] in days;
    }
  }

  /** A day whose sessions are pairwise apart has no repeated start time, so
      `new Set(startTimes).size` equals the number of slots. */
  lemma DuplicateCheckSubsumed(slots: seq<TimeSlot>)
    requires AllStartsSet(slots) && !HasCloseStarts(StartMinutes(slots))
    ensures Distinct(StartTimes(slots))
    ensures |ToSet(StartTimes(slots))| == |slots|
  {
    var m := StartMinutes(slots);
    forall i, j | 0 <= i < |slots| && 0 <= j < |slots| && i != j
      ensures StartTimes(slots)[i] != StartTimes(slots)[j]
    {
      assert !TooClose(m[i], m[j]);
    }
    ToSetSizeDistinct(StartTimes(slots));
  }

  /** Every reported error is a real reason to refuse the schedule. */
  lemma ExplainedIsUnacceptable(days: seq<DayValue>, e: ValidationError)
    requires WellFormedSchedule(days) && Explains(days, e) && !e.DuplicateStartTimes?
    ensures !ScheduleAcceptable(days)
  {
    match e
    case NoDaysEnabled =>
    case NoSlots(k) =>
    case MissingStartTime(k, i) =>
    case InvalidPrice(k, i) =>
    case NoModes(k, i) =>
    case EndsAfterMidnight(k, i) =>
    case SlotsOverlap(k, a, b) =>
      var slots := days[k].slots;
      var i, j :| 0 <= i < |slots| && 0 <= j < |slots| && i != j
                  && slots[i].startTime == a && slots[j].startTime == b;
      assert TooClose(StartMinutes(slots)[i], StartMinutes(slots)[j]);
  }

  /** The duplicate-start-time message describes no schedule at all. */
  lemma DuplicateNeverExplained(days: seq<DayValue>, k: nat)
    requires WellFormedSchedule(days)
    ensures !Explains(days, DuplicateStartTimes(k))
  {
    if Explains(days, DuplicateStartTimes(k)) {
      DuplicateCheckSubsumed(days[k].slots);
    }
  }

  // ---------------------------------------------------------------------
  // The start-time guard of updateSlot
  // ---------------------------------------------------------------------

  /** The three-way interval test updateSlot applies between a new start `n`
      and an existing start `e`. */
  predicate GuardOverlap(n: int, e: int) {
    var newEnd, existingEnd := n + FixedDuration, e + FixedDuration;
    (n >= e && n < existingEnd) || (newEnd > e && newEnd <= existingEnd)
    || (n <= e && newEnd >= existingEnd)
  }

  /** The three cases together say exactly that the sessions share a minute. */
  lemma GuardOverlapIsTooClose(n: int, e: int)
    ensures GuardOverlap(n, e) <==> TooClose(n, e)
  {
  }

  /** A slot of the day other than the `k`-th has a start time and its session
      shares a minute with one starting at `n`. */
  predicate CollidesWithOther(slots: seq<TimeSlot>, k: nat, n: nat)
    requires WellFormedSlots(slots)
  {
    exists j :: 0 <= j < |slots| && j != k && slots[j].startTime != ""
                && TooClose(n, TimeToMinutes(slots[j].startTime))
  }

  /** What the guard decides about a newly picked start time: let it through,
      refuse it because the session would end after midnight, or refuse it
      because it collides with the slot at position `other`. */
  datatype StartTimeCheck = StartAllowed | StartAfterMidnight | StartCollides(other: nat)

  /** The guard updateSlot runs before storing a non-empty start time for slot
      `slotIndex`: the midnight rule first, then the first other slot with a
      start time that the new session would overlap. */
  method CheckStartTime(slots: seq<TimeSlot>, slotIndex: nat, value: string)
    returns (v: StartTimeCheck)
    requires WellFormedSlots(slots) && IsClockTime(value)
    ensures v.StartAfterMidnight? <==> TimeToMinutes(value) + FixedDuration >= MinutesPerDay
    ensures v.StartAllowed? <==>
              TimeToMinutes(value) + FixedDuration < MinutesPerDay
              && !CollidesWithOther(slots, slotIndex, TimeToMinutes(value))
    ensures v.StartCollides? ==>
              && v.other < |slots| && v.other != slotIndex && slots[v.other].startTime != ""
              && TooClose(TimeToMinutes(value), TimeToMinutes(slots[v.other].startTime))
              && forall j :: 0 <= j < v.other && j != slotIndex && slots[j].startTime != "" ==>
                               !TooClose(TimeToMinutes(value), TimeToMinutes(slots[j].startTime))
  {
    var newStartMinutes := TimeToMinutes(value);
    var newEndMinutes := newStartMinutes + FixedDuration;
    if newEndMinutes >= MinutesPerDay {
      return StartAfterMidnight;
    }
    var i: nat := 0;
    while i < |slots|
      invariant i <= |slots|
      invariant forall j :: 0 <= j < i && j != slotIndex && slots[j].startTime != "" ==>
                              !TooClose(newStartMinutes, TimeToMinutes(slots[j].startTime))
    {
      if i != slotIndex && slots[i].startTime != "" {
        var existingStart := TimeToMinutes(slots[i].startTime);
        var existingEnd := existingStart + FixedDuration;
        if || (newStartMinutes >= existingStart && newStartMinutes < existingEnd)
           || (newEndMinutes > existingStart && newEndMinutes <= existingEnd)
           || (newStartMinutes <= existingStart && newEndMinutes >= existingEnd)
        {
          return StartCollides(i);
        }
      }
      i := i + 1;
    }
    return StartAllowed;
  }

  /** The day after storing `value` as the start time of slot `k`. */
  function WithStart(slots: seq<TimeSlot>, k: nat, value: string): (r: seq<TimeSlot>)
    requires k < |slots|
    ensures |r| == |slots| && r[k].startTime == value
    ensures forall i :: 0 <= i < |r| && i != k ==> r[i] == slots[i]
  {
    slots[k := slots[k].(startTime := value)]
  }

  /** The slots other than the `k`-th that have start times are pairwise apart. */
  predicate OthersApart(slots: seq<TimeSlot>, k: nat)
    requires WellFormedSlots(slots)
  {
    forall i, j :: 0 <= i < |slots| && 0 <= j < |slots| && i != j && i != k && j != k
                   && slots[i].startTime != "" && slots[j].startTime != "" ==>
                     !TooClose(TimeToMinutes(slots[i].startTime), TimeToMinutes(slots[j].startTime))
  }

  /** The slots that have start times are pairwise apart. */
  predicate TimedApart(slots: seq<TimeSlot>)
    requires WellFormedSlots(slots)
  {
    forall i, j :: 0 <= i < |slots| && 0 <= j < |slots| && i != j
                   && slots[i].startTime != "" && slots[j].startTime != "" ==>
                     !TooClose(TimeToMinutes(slots[i].startTime), TimeToMinutes(slots[j].startTime))
  }

  /** A start time the guard lets through keeps the timed slots of the day
      apart, so a day edited only through the guard passes the overlap check
      once every slot has its time. */
  lemma GuardKeepsDayApart(slots: seq<TimeSlot>, k: nat, value: string)
    requires WellFormedSlots(slots) && k < |slots| && IsClockTime(value)
    requires !CollidesWithOther(slots, k, TimeToMinutes(value))
    ensures WellFormedSlots(WithStart(slots, k, value))
    ensures TimedApart(slots) ==> TimedApart(WithStart(slots, k, value))
  {
    var u := WithStart(slots, k, value);
    forall i, j | TimedApart(slots) && 0 <= i < |u| && 0 <= j < |u| && i != j
                  && u[i].startTime != "" && u[j].startTime != ""
      ensures !TooClose(TimeToMinutes(u[i].startTime), TimeToMinutes(u[j].startTime))
    {
      if i == k {
        assert u[j] == slots[j];
      } else if j == k {
        assert u[i] == slots[i];
      } else {
        assert u[i] == slots[i] && u[j] == slots[j];
      }
    }
  }

  /** A fully timed day whose slots are apart passes the overlap check. */
  lemma TimedApartNoCloseStarts(slots: seq<TimeSlot>)
    requires AllStartsSet(slots) && TimedApart(slots)
    ensures !HasCloseStarts(StartMinutes(slots))
  {
    var m := StartMinutes(slots);
    forall i, j | 0 <= i < |m| && 0 <= j < |m| && i != j
      ensures !TooClose(m[i], m[j])
    {
      assert slots[i].startTime != "" && slots[j].startTime != "";
    }
  }

  /** On a day whose other slots are timed and apart, the guard refuses a
      start time for collision exactly when the overlap check at saving would
      refuse the day with that start time stored. Slot `k` itself may still be
      unset, as a slot just added is. */
  lemma GuardAgreesWithOverlapCheck(slots: seq<TimeSlot>, k: nat, value: string)
    requires WellFormedSlots(slots) && k < |slots| && IsClockTime(value)
    requires forall i :: 0 <= i < |slots| && i != k ==> IsClockTime(slots[i].startTime)
    requires OthersApart(slots, k)
    ensures AllStartsSet(WithStart(slots, k, value))
    ensures HasCloseStarts(StartMinutes(WithStart(slots, k, value)))
        <==> CollidesWithOther(slots, k, TimeToMinutes(value))
  {
    var u := WithStart(slots, k, value);
    var m := StartMinutes(u);
    var n := TimeToMinutes(value);
    if HasCloseStarts(m) {
      var i, j :| 0 <= i < |m| && 0 <= j < |m| && i != j && TooClose(m[i], m[j]);
      if i == k {
        assert TooClose(n, TimeToMinutes(slots[j].startTime));
      } else if j == k {
        assert TooClose(n, TimeToMinutes(slots[i].startTime));
      } else {
        assert false;
      }
    }
    if CollidesWithOther(slots, k, n) {
      var j :| 0 <= j < |slots| && j != k && slots[j].startTime != ""
               && TooClose(n, TimeToMinutes(slots[j].startTime));
      assert TooClose(m[k], m[j]);
    }
  }

  // ---------------------------------------------------------------------
  // toggleMode
  // ---------------------------------------------------------------------

  /** toggleMode on a slot's list of modes: removes `mode` when present,
      appends it otherwise. Every other mode keeps its membership. */
  function ToggleMode(modes: seq<Mode>, mode: Mode): (r: seq<Mode>)
    ensures mode in r <==> mode !in modes
    ensures forall m :: m != mode ==> (m in r <==> m in modes)
  {
    if mode in modes then Filter(modes, (m: Mode) => m != mode) else modes + [mode]
  }

  /** Toggling twice gives back the same set of modes. */
  lemma ToggleModeTwice(modes: seq<Mode>, mode: Mode)
    ensures ToSet(ToggleMode(ToggleMode(modes, mode), mode)) == ToSet(modes)
  {
  }

  /** A list of modes without repeats stays without repeats. */
  lemma ToggleModeDistinct(modes: seq<Mode>, mode: Mode)
    requires Distinct(modes)
    ensures Distinct(ToggleMode(modes, mode))
  {
    if mode in modes {
      FilterDistinct(modes, (m: Mode) => m != mode);
    } else {
      DistinctSnoc(modes, mode);
    }
  }
}
