/** The four-cell one-time-password form (OtpForm): typing and pasting
    digits into the cells, the Backspace focus rule, the resend countdown
    and its `m:ss` rendering, and when the Verify button is enabled. */
module Otp {
  import opened Text

  const CellCount: nat := 4
  const ResendSeconds: nat := 60

  /** A cell holds nothing or one decimal digit. */
  predicate IsCell(c: string) {
    |c| <= 1 && AllDigits(c)
  }

  predicate CellsValid(cells: seq<string>) {
    |cells| == CellCount && forall i :: 0 <= i < |cells| ==> IsCell(cells[i])
  }

  function EmptyCells(): (r: seq<string>)
    ensures CellsValid(r) && forall i :: 0 <= i < |r| ==> r[i] == ""
  {
    ["", "", "", ""]
  }

  /** `cells.join('')` */
  function Join(cells: seq<string>): string {
    if cells == [] then [] else Join(cells[..|cells| - 1]) + cells[|cells| - 1]
  }

  /** The Verify button is enabled when the joined code has four characters. */
  predicate VerifyEnabled(cells: seq<string>) {
    |Join(cells)| == CellCount
  }

  /** Number of non-empty cells. */
  function Filled(cells: seq<string>): nat {
    if cells == [] then 0
    else Filled(cells[..|cells| - 1]) + (if cells[|cells| - 1] != "" then 1 else 0)
  }

  lemma {:induction false} JoinLength(cells: seq<string>)
    requires forall i :: 0 <= i < |cells| ==> |cells[i]| <= 1
    ensures |Join(cells)| == Filled(cells) <= |cells|
  {
    if cells != [] {
      JoinLength(cells[..|cells| - 1]);
    }
  }

  lemma {:induction false} FilledAll(cells: seq<string>)
    ensures Filled(cells) == |cells| <==> forall i :: 0 <= i < |cells| ==> cells[i] != ""
  {
    if cells != [] {
      var p := cells[..|cells| - 1];
      FilledAll(p);
      FilledAtMost(p);
      assert forall i :: 0 <= i < |p| ==> p[i] == cells[i];
    }
  }

  lemma {:induction false} FilledAtMost(cells: seq<string>)
    ensures Filled(cells) <= |cells|
  {
    if cells != [] {
      FilledAtMost(cells[..|cells| - 1]);
    }
  }

  /** With every cell empty or one digit, Verify is enabled exactly when all
      four cells are filled. */
  lemma VerifyEnabledIffFilled(cells: seq<string>)
    requires CellsValid(cells)
    ensures VerifyEnabled(cells) <==> forall i :: 0 <= i < |cells| ==> cells[i] != ""
  {
    JoinLength(cells);
    FilledAll(cells);
  }

  /** handleChange's guard: at most one character, and only digits. */
  predicate ChangeAccepted(value: string) {
    |value| <= 1 && AllDigits(value)
  }

  /** The cells after handleChange(index, value). */
  function Changed(cells: seq<string>, index: nat, value: string): (r: seq<string>)
    requires index < |cells|
    ensures |r| == |cells|
    ensures ChangeAccepted(value) ==> r[index] == value
    ensures forall i :: 0 <= i < |cells| && (i != index || !ChangeAccepted(value)) ==> r[i] == cells[i]
  {
    if ChangeAccepted(value) then cells[index := value] else cells
  }

  /** Typing never puts anything but an empty cell or a digit in a cell. */
  lemma ChangeKeepsCellsValid(cells: seq<string>, index: nat, value: string)
    requires CellsValid(cells) && index < |cells|
    ensures CellsValid(Changed(cells, index, value))
  {
  }

  /** `pastedData`: the first four characters of the clipboard text. */
  function PastedPrefix(text: string): (r: string)
    ensures |r| == if |text| < CellCount then |text| else CellCount
    ensures r == text[..|r|]
  {
    if |text| <= CellCount then text else text[..CellCount]
  }

  /** `/^\d+$/` on the pasted prefix. */
  predicate PasteAccepted(pasted: string) {
    |pasted| >= 1 && AllDigits(pasted)
  }

  /** The loop of handlePaste: cell `i` receives pasted character `i` for
      every `i` below both the pasted length and four; later cells are kept. */
  method PasteInto(cells: seq<string>, pasted: string) returns (r: seq<string>)
    requires |cells| == CellCount
    ensures |r| == |cells|
    ensures forall i :: 0 <= i < |r| && i < |pasted| ==> r[i] == [pasted[i]]
    ensures forall i :: |pasted| <= i < |r| ==> r[i] == cells[i]
  {
    r := cells;
    var i := 0;
    while i < |pasted| && i < CellCount
      invariant 0 <= i <= CellCount && i <= |pasted|
      invariant |r| == |cells|
      invariant forall j :: 0 <= j < i ==> r[j] == [pasted[j]]
      invariant forall j :: i <= j < |r| ==> r[j] == cells[j]
    {
      r := r[i := [pasted[i]]];
      i := i + 1;
    }
  }

  /** A digit paste keeps every cell empty or one digit. */
  lemma PasteKeepsCellsValid(cells: seq<string>, pasted: string, r: seq<string>)
    requires CellsValid(cells) && PasteAccepted(pasted) && |r| == |cells|
    requires forall i :: 0 <= i < |r| && i < |pasted| ==> r[i] == [pasted[i]]
    requires forall i :: |pasted| <= i < |r| ==> r[i] == cells[i]
    ensures CellsValid(r)
  {
    forall i | 0 <= i < |r|
      ensures IsCell(r[i])
    {
      if i < |pasted| {
        assert IsDigit(pasted[i]);
      }
    }
  }

  /** A paste of four digits fills the form, so Verify becomes enabled. */
  lemma FullPasteEnablesVerify(cells: seq<string>, pasted: string, r: seq<string>)
    requires CellsValid(cells) && PasteAccepted(pasted) && |pasted| == CellCount && |r| == |cells|
    requires forall i :: 0 <= i < |r| && i < |pasted| ==> r[i] == [pasted[i]]
    ensures CellsValid(r) && VerifyEnabled(r)
  {
    PasteKeepsCellsValid(cells, pasted, r);
    VerifyEnabledIffFilled(r);
  }

  /** `Math.min(pastedData.length, 3)`: the cell focused after a paste. */
  function FocusAfterPaste(pasted: string): (k: nat)
    ensures k < CellCount && (k == |pasted| || (k == CellCount - 1 && |pasted| >= CellCount - 1))
  {
    if |pasted| < 3 then |pasted| else 3
  }

  // ---------------------------------------------------------------------
  // Countdown text
  // ---------------------------------------------------------------------

  /** `s.padStart(2, '0')` */
  function PadStart2(s: string): (r: string)
    ensures |s| >= 2 ==> r == s
    ensures |s| < 2 ==> |r| == 2 && r[2 - |s|..] == s
  {
    if |s| == 0 then "00" else if |s| == 1 then "0" + s else s
  }

  /** Padding a number's digits to two places is the two-digit rendering. */
  lemma PadStartOfNumber(n: nat)
    requires n < 100
    ensures PadStart2(NatToString(n)) == Pad2(n)
  {
    var s := NatToString(n);
    DecimalRoundTrip(n);
    if n < 10 {
      assert s == [DigitChar(n)];
    } else {
      Pad2OfDecimal(s);
    }
  }

  /** formatTime: whole minutes, a colon, and the seconds on two digits. */
  function FormatTime(seconds: nat): (r: string)
    ensures |r| >= 4 && r[|r| - 3] == ':'
  {
    var mins := seconds / 60;
    var secs := seconds % 60;
    NatToString(mins) + ":" + PadStart2(NatToString(secs))
  }

  /** Reading a countdown text `m:ss` back as a number of seconds. */
  function ReadCountdown(r: string): Option<nat> {
    if |r| >= 4 && r[|r| - 3] == ':' && AllDigits(r[..|r| - 3]) && AllDigits(r[|r| - 2..])
       && DecimalValue(r[|r| - 2..]) < 60
    then Some(60 * DecimalValue(r[..|r| - 3]) + DecimalValue(r[|r| - 2..]))
    else None
  }

  lemma ReadCountdownOf(m: string, ss: string)
    requires |m| >= 1 && AllDigits(m) && |ss| == 2 && AllDigits(ss) && DecimalValue(ss) < 60
    ensures ReadCountdown(m + ":" + ss) == Some(60 * DecimalValue(m) + DecimalValue(ss))
  {
    var r := m + ":" + ss;
    assert r[..|r| - 3] == m;
    assert r[|r| - 2..] == ss;
  }

  /** The countdown text names the number of seconds left: it reads back as
      exactly that number. */
  lemma FormatTimeReadBack(seconds: nat)
    ensures ReadCountdown(FormatTime(seconds)) == Some(seconds)
  {
    var mins, secs := seconds / 60, seconds % 60;
    PadStartOfNumber(secs);
    DecimalRoundTrip(mins);
    ReadCountdownOf(NatToString(mins), Pad2(secs));
  }

  /** Sixty seconds read "1:00" and five read "0:05". */
  lemma FormatTimeExamples()
    ensures FormatTime(60) == "1:00"
    ensures FormatTime(5) == "0:05"
  {
    assert NatToString(1) == "1";
    assert NatToString(0) == "0";
    assert NatToString(5) == "5";
  }

  // ---------------------------------------------------------------------
  // The form
  // ---------------------------------------------------------------------

  /** The form's state: the cells, the seconds left, whether Resend is
      offered, and the cell that last received focus. */
  class OtpForm {
    var cells: seq<string>
    var timer: nat
    var canResend: bool
    var focused: Option<nat>

    /** Every cell holds nothing or one digit, the countdown never exceeds
        sixty seconds, and Resend is offered exactly when it has run out. */
    ghost predicate Valid()
      reads this
    {
      CellsValid(cells) && timer <= ResendSeconds && (canResend <==> timer == 0)
      && (focused.Some? ==> focused.value < CellCount)
    }

    constructor ()
      ensures cells == EmptyCells() && timer == ResendSeconds && !canResend && focused.None?
      ensures Valid()
    {
      cells := EmptyCells();
      timer := ResendSeconds;
      canResend := false;
      focused := None;
    }

    /** handleChange: a refused value changes nothing; otherwise only cell
        `index` is written, and a digit moves the focus to the next cell. */
    method HandleChange(index: nat, value: string)
      requires Valid() && index < CellCount
      modifies this
      ensures cells == Changed(old(cells), index, value)
      ensures focused == if ChangeAccepted(value) && value != "" && index < 3 then Some(index + 1)
                         else old(focused)
      ensures timer == old(timer) && canResend == old(canResend)
      ensures Valid()
    {
      if |value| > 1 {
        return;
      }
      if !AllDigits(value) {
        return;
      }
      ChangeKeepsCellsValid(cells, index, value);
      cells := cells[index := value];
      if value != "" && index < 3 {
        focused := Some(index + 1);
      }
    }

    /** handleKeyDown: Backspace in an empty cell other than the first moves
        the focus back one cell. */
    method HandleKeyDown(index: nat, key: string)
      requires Valid() && index < CellCount
      modifies this
      ensures focused == if key == "Backspace" && old(cells)[index] == "" && index > 0 then Some(index - 1)
                         else old(focused)
      ensures cells == old(cells) && timer == old(timer) && canResend == old(canResend)
      ensures Valid()
    {
      if key == "Backspace" && cells[index] == "" && index > 0 {
        focused := Some(index - 1);
      }
    }

    /** handlePaste: unless the first four pasted characters are one or more
        digits nothing changes; otherwise they overwrite the first cells and
        the focus goes to the cell after them, or the last one. */
    method HandlePaste(text: string)
      requires Valid()
      modifies this
      ensures Valid()
      ensures var p := PastedPrefix(text);
        if PasteAccepted(p) then
          (forall i :: 0 <= i < CellCount && i < |p| ==> cells[i] == [p[i]])
          && (forall i :: |p| <= i < CellCount ==> cells[i] == old(cells)[i])
          && focused == Some(FocusAfterPaste(p))
        else cells == old(cells) && focused == old(focused)
      ensures timer == old(timer) && canResend == old(canResend)
    {
      var pasted := PastedPrefix(text);
      if !PasteAccepted(pasted) {
        return;
      }
      var newCells := PasteInto(cells, pasted);
      PasteKeepsCellsValid(cells, pasted, newCells);
      cells := newCells;
      focused := Some(FocusAfterPaste(pasted));
    }

    /** One second of the countdown: while time is left it drops by one, and
        when it reaches zero Resend is offered. */
    method Tick()
      requires Valid()
      modifies this
      ensures old(timer) > 0 ==> timer == old(timer) - 1
      ensures old(timer) == 0 ==> timer == 0
      ensures canResend <==> timer == 0
      ensures cells == old(cells) && focused == old(focused)
      ensures Valid()
    {
      if timer > 0 {
        timer := timer - 1;
      }
      canResend := timer == 0;
    }

    /** handleResend: nothing unless Resend is offered; otherwise the cells
        are emptied, the countdown restarts at sixty seconds and the first
        cell is focused. The answer says whether a new code is requested. */
    method HandleResend() returns (requested: bool)
      requires Valid()
      modifies this
      ensures requested == old(canResend)
      ensures requested ==> cells == EmptyCells() && timer == ResendSeconds && !canResend
                            && focused == Some(0)
      ensures !requested ==> cells == old(cells) && timer == old(timer) && canResend == old(canResend)
                             && focused == old(focused)
      ensures Valid()
    {
      if !canResend {
        return false;
      }
      cells := EmptyCells();
      timer := ResendSeconds;
      canResend := false;
      focused := Some(0);
      return true;
    }
  }

  /** Sixty ticks after the form opens, Resend is offered. */
  method ResendOfferedAfterCountdown() returns (offered: bool)
    ensures offered
  {
    var form := new OtpForm();
    var k := 0;
    while k < ResendSeconds
      invariant 0 <= k <= ResendSeconds
      invariant form.Valid() && form.timer == ResendSeconds - k
    {
      form.Tick();
      k := k + 1;
    }
    offered := form.canResend;
  }
}
