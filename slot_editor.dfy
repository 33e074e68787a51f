/** The state of the weekly availability editor (ManageSlots) and its event
    handlers. Day entries are objects: the handlers copy the array of days
    shallowly and then assign into the day objects, so a day object shared
    with the saved schedule is changed for both. */
module SlotEditor {
  import opened Text
  import opened Collections
  import opened SlotTime
  import opened Overlap
  import opened Schedule

  /** One day of a schedule, `{ day, enabled, slots }`. */
  class Day {
    const name: string
    var enabled: bool
    var slots: seq<TimeSlot>

    constructor (name: string, enabled: bool, slots: seq<TimeSlot>)
      ensures this.name == name && this.enabled == enabled && this.slots == slots
    {
      this.name := name;
      this.enabled := enabled;
      this.slots := slots;
    }

    function Value(): DayValue
      reads this
    {
      DayValue(name, enabled, slots)
    }
  }

  /** `days.find(d => d.day === name)`: the first day object with that name. */
  function FindDay(days: seq<Day>, name: string): (r: Option<Day>)
    ensures r.None? <==> forall i :: 0 <= i < |days| ==> days[i].name != name
    ensures r.Some? ==> exists i :: 0 <= i < |days| && days[i] == r.value && r.value.name == name
                                    && forall j :: 0 <= j < i ==> days[j].name != name
  {
    if days == [] then None
    else if days[0].name == name then Some(days[0])
    else
      var r := FindDay(days[1..], name);
      assert forall i :: 1 <= i < |days| ==> days[i] == days[1..][i - 1];
      r
  }

  /** New day objects holding the given values, one per value. */
  method NewDays(values: seq<DayValue>) returns (days: seq<Day>)
    ensures |days| == |values|
    ensures forall i :: 0 <= i < |days| ==> fresh(days[i]) && days[i].Value() == values[i]
    ensures Distinct(days)
  {
    days := [];
    var i := 0;
    while i < |values|
      invariant 0 <= i <= |values| && |days| == i
      invariant forall j :: 0 <= j < i ==> fresh(days[j]) && days[j].Value() == values[j]
      invariant Distinct(days)
    {
      var d := new Day(values[i].day, values[i].enabled, values[i].slots);
      days := days + [d];
      i := i + 1;
    }
  }

  /** The value of a day that is not in the saved schedule yet. */
  function EmptyDay(name: string): DayValue {
    DayValue(name, false, [])
  }

  /** The day `name` as the editor opens it: the saved day of that name, or
      a new disabled day without slots. */
  function ExistingOrEmpty(saved: seq<Day>, name: string): DayValue
    reads saved
  {
    match FindDay(saved, name)
    case Some(d) => d.Value()
    case None => EmptyDay(name)
  }

  /** The names of the week's days are pairwise different. */
  lemma DaysDistinct()
    ensures Distinct(Days)
  {
  }

  /** The slot after an edit of one field: `{ ...slot, [field]: value }`. */
  function Edited(slot: TimeSlot, edit: SlotEdit): (r: TimeSlot)
    ensures edit.SetStart? ==> r.startTime == edit.time && r.modes == slot.modes && r.price == slot.price
    ensures edit.SetPrice? ==> r.price == edit.amount && r.modes == slot.modes && r.startTime == slot.startTime
  {
    match edit
    case SetStart(t) => slot.(startTime := t)
    case SetPrice(p) => slot.(price := p)
  }

  /** What an edit of a slot field carries: the picker value for the start
      time ("" when cleared) or the number typed as the price. */
  datatype SlotEdit = SetStart(time: string) | SetPrice(amount: real)

  /** How updateSlot ends: the value is stored, or a message refuses it. */
  datatype UpdateOutcome =
    | Stored
    | RefusedAfterMidnight
    | RefusedCollision(other: nat)
    | RefusedNegativePrice

  /** How handleSaveSchedule ends: validation refuses, the request fails, or
      the schedule is sent (created when there was none, else updated) and
      the reply becomes the saved schedule. */
  datatype SaveOutcome =
    | NotValid(error: ValidationError)
    | RequestFailed(sent: seq<DayValue>, created: bool)
    | SavedSchedule(sent: seq<DayValue>, created: bool)

  class SlotManager {
    /** weeklySchedule.schedule, None until one is loaded or created. */
    var weekly: Option<seq<Day>>
    var isEditing: bool
    /** editingSchedule */
    var editing: seq<Day>

    function Persisted(): seq<Day>
      reads this
    {
      if weekly.Some? then weekly.value else []
    }

    function PersistedValues(): (r: seq<DayValue>)
      reads this, Persisted()
      ensures |r| == |Persisted()|
    {
      seq(|Persisted()|, i reads this, Persisted() requires 0 <= i < |Persisted()| => Persisted()[i].Value())
    }

    function Values(): (r: seq<DayValue>)
      reads this, editing
      ensures |r| == |editing|
      ensures forall k :: 0 <= k < |r| ==> r[k] == editing[k].Value()
    {
      seq(|editing|, k reads this, editing requires 0 <= k < |editing| => editing[k].Value())
    }

    ghost predicate Valid()
      reads this, editing, Persisted()
    {
      && (!isEditing ==> editing == [])
      && (isEditing ==> |editing| == |Days| && forall k :: 0 <= k < |Days| ==> editing[k].name == Days[k])
      && Distinct(editing)
      && (forall k :: 0 <= k < |editing| ==> WellFormedSlots(editing[k].slots))
      && (forall i :: 0 <= i < |Persisted()| ==> WellFormedSlots(Persisted()[i].slots))
    }

    /** No day being edited is a day of the saved schedule: editing cannot
        reach the saved schedule. */
    ghost predicate Detached()
      reads this
    {
      forall k, i :: 0 <= k < |editing| && 0 <= i < |Persisted()| ==> editing[k] != Persisted()[i]
    }

    constructor ()
      ensures weekly.None? && !isEditing && editing == []
      ensures Valid()
    {
      weekly := None;
      isEditing := false;
      editing := [];
    }

    /** setWeeklySchedule(response.data): the reply becomes the saved
        schedule as new day objects. */
    method ReceiveSchedule(reply: seq<DayValue>)
      requires Valid() && WellFormedSchedule(reply)
      modifies this
      ensures weekly.Some? && PersistedValues() == reply
      ensures forall i :: 0 <= i < |Persisted()| ==> fresh(Persisted()[i])
      ensures isEditing == old(isEditing) && editing == old(editing)
      ensures Valid() && Detached()
    {
      var days := NewDays(reply);
      weekly := Some(days);
    }

    /** initializeNewSchedule: seven new disabled days without slots. */
    method InitializeNewSchedule()
      requires Valid()
      modifies this
      ensures isEditing && weekly == old(weekly)
      ensures Values() == seq(|Days|, k requires 0 <= k < |Days| => EmptyDay(Days[k]))
      ensures forall k :: 0 <= k < |editing| ==> fresh(editing[k])
      ensures Valid() && Detached()
    {
      var newDays := NewDays(seq(|Days|, k requires 0 <= k < |Days| => EmptyDay(Days[k])));
      editing := newDays;
      isEditing := true;
      assert forall i :: 0 <= i < |Persisted()| ==> Persisted()[i] == old(Persisted()[i]);
    }

    /** The days the editor opens with, as values: for each day of the week
        the saved day of that name, or a new empty one. */
    function EditableCopy(): (r: seq<DayValue>)
      reads this, Persisted()
      ensures |r| == |Days|
    {
      seq(|Days|, k reads this, Persisted() requires 0 <= k < |Days| =>
            ExistingOrEmpty(Persisted(), Days[k]))
    }

    /** startEditingSchedule as written: each day of the week is the saved
        day object itself when there is one, so the editor and the saved
        schedule share those objects. Without a saved schedule nothing
        happens. */
    method StartEditingScheduleAsWritten()
      requires Valid()
      modifies this
      ensures weekly == old(weekly)
      ensures old(weekly).None? ==> isEditing == old(isEditing) && editing == old(editing)
      ensures old(weekly).Some? ==> isEditing && Values() == old(EditableCopy())
      ensures old(weekly).Some? ==>
                forall k :: 0 <= k < |Days| ==>
                  match FindDay(Persisted(), Days[k])
                  case Some(d) => editing[k] == d
                  case None => fresh(editing[k])
      ensures Valid()
    {
      if weekly.Some? {
        var fullSchedule: seq<Day> := [];
        var k := 0;
        while k < |Days|
          invariant 0 <= k <= |Days| && |fullSchedule| == k
          invariant weekly == old(weekly) && isEditing == old(isEditing) && editing == old(editing)
          invariant forall j :: 0 <= j < k ==>
                      && fullSchedule[j].name == Days[j]
                      && fullSchedule[j].Value() == ExistingOrEmpty(Persisted(), Days[j])
                      && match FindDay(Persisted(), Days[j])
                         case Some(d) => fullSchedule[j] == d
                         case None => fresh(fullSchedule[j])
          invariant forall i :: 0 <= i < |Persisted()| ==> WellFormedSlots(Persisted()[i].slots)
          invariant forall j :: 0 <= j < k ==> WellFormedSlots(fullSchedule[j].slots)
        {
          var existingDay := FindDay(weekly.value, Days[k]);
          var day: Day;
          if existingDay.Some? {
            day := existingDay.value;
          } else {
            day := new Day(Days[k], false, []);
          }
          fullSchedule := fullSchedule + [day];
          k := k + 1;
        }
        DaysDistinct();
        ghost var saved := Persisted();
        editing := fullSchedule;
        isEditing := true;
        assert Persisted() == saved;
      }
    }

    /** startEditingSchedule with the days copied: the editor opens the same
        values on new day objects, so nothing done while editing reaches the
        saved schedule before it is saved. */
    method StartEditingSchedule()
      requires Valid()
      modifies this
      ensures weekly == old(weekly)
      ensures old(weekly).None? ==> isEditing == old(isEditing) && editing == old(editing)
      ensures old(weekly).Some? ==> isEditing && Values() == old(EditableCopy())
      ensures old(weekly).Some? ==> forall k :: 0 <= k < |editing| ==> fresh(editing[k])
      ensures old(weekly).Some? ==> Detached()
      ensures Valid()
    {
      if weekly.Some? {
        var copies := NewDays(EditableCopy());
        editing := copies;
        isEditing := true;
        assert forall i :: 0 <= i < |Persisted()| ==> Persisted()[i] == old(Persisted()[i]);
      }
    }

    /** toggleDay: flips whether the day takes bookings. The new array holds
        the same day objects, so only the day object changes. */
    method ToggleDay(dayIndex: nat)
      requires Valid() && dayIndex < |editing|
      modifies editing[dayIndex]
      ensures editing[dayIndex].enabled == !old(editing[dayIndex].enabled)
      ensures editing[dayIndex].slots == old(editing[dayIndex].slots)
      ensures Valid()
      ensures old(Detached()) ==> PersistedValues() == old(PersistedValues())
    {
      var updated := editing;
      updated[dayIndex].enabled := !updated[dayIndex].enabled;
    }

    /** addSlotToDay: appends an unset slot offering video at price 0. */
    method AddSlotToDay(dayIndex: nat)
      requires Valid() && dayIndex < |editing|
      modifies editing[dayIndex]
      ensures editing[dayIndex].slots == old(editing[dayIndex].slots) + [TimeSlot("", [Video], 0.0)]
      ensures editing[dayIndex].enabled == old(editing[dayIndex].enabled)
      ensures Valid()
      ensures old(Detached()) ==> PersistedValues() == old(PersistedValues())
    {
      var updated := editing;
      updated[dayIndex].slots := updated[dayIndex].slots + [TimeSlot("", [Video], 0.0)];
    }

    /** removeSlotFromDay: `splice(slotIndex, 1)` on the day's slots. */
    method RemoveSlotFromDay(dayIndex: nat, slotIndex: nat)
      requires Valid() && dayIndex < |editing|
      modifies editing[dayIndex]
      ensures editing[dayIndex].slots == RemoveAt(old(editing[dayIndex].slots), slotIndex)
      ensures editing[dayIndex].enabled == old(editing[dayIndex].enabled)
      ensures old(TimedApart(editing[dayIndex].slots)) ==> TimedApart(editing[dayIndex].slots)
      ensures Valid()
      ensures old(Detached()) ==> PersistedValues() == old(PersistedValues())
    {
      var updated := editing;
      updated[dayIndex].slots := RemoveAt(updated[dayIndex].slots, slotIndex);
    }

    /** updateSlot: a non-empty start time passes the guard first (midnight,
        then collisions with the day's other timed slots); a negative price
        is refused; otherwise the field is stored. */
    method UpdateSlot(dayIndex: nat, slotIndex: nat, edit: SlotEdit) returns (outcome: UpdateOutcome)
      requires Valid() && dayIndex < |editing| && slotIndex < |editing[dayIndex].slots|
      requires edit.SetStart? ==> edit.time == "" || IsClockTime(edit.time)
      modifies editing[dayIndex]
      ensures outcome.RefusedAfterMidnight? <==>
                edit.SetStart? && edit.time != ""
                && TimeToMinutes(edit.time) + FixedDuration >= MinutesPerDay
      ensures outcome.RefusedCollision? ==>
                && edit.SetStart? && edit.time != "" && outcome.other != slotIndex
                && outcome.other < |old(editing[dayIndex].slots)|
                && var other := old(editing[dayIndex].slots)[outcome.other];
                   other.startTime != ""
                   && TooClose(TimeToMinutes(edit.time), TimeToMinutes(other.startTime))
      ensures outcome.RefusedNegativePrice? <==> edit.SetPrice? && edit.amount < 0.0
      ensures outcome.Stored? <==>
                || (edit.SetStart? && (edit.time == "" ||
                      (TimeToMinutes(edit.time) + FixedDuration < MinutesPerDay
                       && !CollidesWithOther(old(editing[dayIndex].slots), slotIndex, TimeToMinutes(edit.time)))))
                || (edit.SetPrice? && edit.amount >= 0.0)
      ensures outcome.Stored? ==>
                editing[dayIndex].slots
                == old(editing[dayIndex].slots)[slotIndex := Edited(old(editing[dayIndex].slots)[slotIndex], edit)]
      ensures !outcome.Stored? ==> editing[dayIndex].slots == old(editing[dayIndex].slots)
      ensures editing[dayIndex].enabled == old(editing[dayIndex].enabled)
      ensures old(TimedApart(editing[dayIndex].slots)) ==> TimedApart(editing[dayIndex].slots)
      ensures Valid()
      ensures old(Detached()) ==> PersistedValues() == old(PersistedValues())
    {
      var updated := editing;
      var currentDaySlots := updated[dayIndex].slots;
      if edit.SetStart? && edit.time != "" {
        var check := CheckStartTime(currentDaySlots, slotIndex, edit.time);
        match check
        case StartAfterMidnight =>
          return RefusedAfterMidnight;
        case StartCollides(i) =>
          return RefusedCollision(i);
        case StartAllowed =>
          GuardKeepsDayApart(currentDaySlots, slotIndex, edit.time);
      }
      if edit.SetPrice? && edit.amount < 0.0 {
        return RefusedNegativePrice;
      }
      updated[dayIndex].slots := currentDaySlots[slotIndex := Edited(currentDaySlots[slotIndex], edit)];
      return Stored;
    }

    /** toggleMode on one slot of one day. */
    method ToggleSlotMode(dayIndex: nat, slotIndex: nat, mode: Mode)
      requires Valid() && dayIndex < |editing| && slotIndex < |editing[dayIndex].slots|
      modifies editing[dayIndex]
      ensures var before := old(editing[dayIndex].slots);
              editing[dayIndex].slots
              == before[slotIndex := before[slotIndex].(modes := ToggleMode(before[slotIndex].modes, mode))]
      ensures editing[dayIndex].enabled == old(editing[dayIndex].enabled)
      ensures Valid()
      ensures old(Detached()) ==> PersistedValues() == old(PersistedValues())
    {
      var updated := editing;
      var slot := updated[dayIndex].slots[slotIndex];
      updated[dayIndex].slots := updated[dayIndex].slots[slotIndex := slot.(modes := ToggleMode(slot.modes, mode))];
    }

    /** The Cancel button: leaves editing and drops the edited days. */
    method Cancel()
      requires Valid()
      modifies this
      ensures !isEditing && editing == [] && weekly == old(weekly)
      ensures PersistedValues() == old(PersistedValues())
      ensures Valid() && Detached()
    {
      isEditing := false;
      editing := [];
    }

    /** handleSaveSchedule: validates the edited days; when they pass, sends
        the enabled ones (creating the schedule when none was saved, else
        updating it). `reply` is the server's answer, None when the request
        fails. On success the reply becomes the saved schedule and editing
        ends; otherwise the state stays as it was. */
    method SaveSchedule(reply: Option<seq<DayValue>>) returns (outcome: SaveOutcome)
      requires Valid() && (reply.Some? ==> WellFormedSchedule(reply.value))
      modifies this
      ensures outcome.NotValid? <==> !ScheduleAcceptable(old(Values()))
      ensures outcome.NotValid? ==>
                Explains(old(Values()), outcome.error) && !outcome.error.DuplicateStartTimes?
      ensures !outcome.NotValid? ==>
                outcome.sent == Filter(old(Values()), IsEnabled) && (outcome.created <==> old(weekly).None?)
      ensures outcome.SavedSchedule? <==> !outcome.NotValid? && reply.Some?
      ensures outcome.SavedSchedule? ==> PersistedValues() == reply.value && !isEditing && editing == []
      ensures !outcome.SavedSchedule? ==>
                weekly == old(weekly) && isEditing == old(isEditing) && editing == old(editing)
      ensures Valid()
    {
      var days := Values();
      var validation := ValidateSchedule(days);
      if validation.Rejected? {
        return NotValid(validation.error);
      }
      var scheduleData := Filter(days, IsEnabled);
      var created := weekly.None?;
      if reply.None? {
        return RequestFailed(scheduleData, created);
      }
      isEditing := false;
      editing := [];
      assert forall i :: 0 <= i < |Persisted()| ==> Persisted()[i] == old(Persisted()[i]);
      ReceiveSchedule(reply.value);
      return SavedSchedule(scheduleData, created);
    }
  }

  // ---------------------------------------------------------------------
  // The shared-day finding
  // ---------------------------------------------------------------------

  /** As written: open the editor on a saved schedule holding a disabled
      Monday, enable Monday, press Cancel. The saved Monday is now enabled
      although nothing was saved. */
  method SharedDayAfterCancel() returns (before: DayValue, after: DayValue)
    ensures before == DayValue("Monday", false, [])
    ensures after == DayValue("Monday", true, [])
  {
    var m := new SlotManager();
    m.ReceiveSchedule([EmptyDay("Monday")]);
    before := m.PersistedValues()[0];
    var saved := m.Persisted()[0];
    m.StartEditingScheduleAsWritten();
    assert FindDay(m.Persisted(), Days[1]) == Some(saved);
    m.ToggleDay(1);
    m.Cancel();
    assert m.Persisted() == [saved];
    after := m.PersistedValues()[0];
  }

  /** Corrected: the same steps on copied days leave the saved Monday as it was. */
  method DetachedDayAfterCancel() returns (before: DayValue, after: DayValue)
    ensures before == DayValue("Monday", false, [])
    ensures after == before
  {
    var m := new SlotManager();
    m.ReceiveSchedule([EmptyDay("Monday")]);
    before := m.PersistedValues()[0];
    m.StartEditingSchedule();
    m.ToggleDay(1);
    m.Cancel();
    after := m.PersistedValues()[0];
  }
}
