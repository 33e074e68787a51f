/** The therapist dashboard (therapist Dashboard): today's appointments, the
    next three upcoming sessions, the client and session counts, and the
    latest notifications with their relative times. Dates are `YYYY-MM-DD`
    and times `HH:MM` strings, compared character by character. */
module TherapistDashboard {
  import opened Text
  import opened Collections
  import opened Elapsed

  // ---------------------------------------------------------------------
  // Relative time
  // ---------------------------------------------------------------------

  /** formatRelativeTime's text for `elapsed` milliseconds: "just now",
      then whole minutes, hours or days with " min ago", " h ago" or
      " d ago"; from a week on the locale date, left out here (""). */
  function FormatRelativeTime(elapsed: int): (r: string)
    ensures elapsed < MsPerMinute <==> r == "just now"
    ensures MsPerMinute <= elapsed < 60 * MsPerMinute ==> r == NatToString(elapsed / MsPerMinute) + " min ago"
    ensures 60 * MsPerMinute <= elapsed < 24 * MsPerHour ==> r == NatToString(elapsed / MsPerHour) + " h ago"
    ensures 24 * MsPerHour <= elapsed < 7 * MsPerDay ==> r == NatToString(elapsed / MsPerDay) + " d ago"
  {
    var b := Bucket(elapsed);
    match b
    case JustNow => "just now"
    case MinutesAgo(n) => NatToString(n) + " min ago"
    case HoursAgo(n) =>
      var t := NatToString(n) + " h ago";
      assert IsDigit(t[0]) && !IsDigit("just now"[0]);
      t
    case DaysAgo(n) => NatToString(n) + " d ago"
    case OnDate => ""
  }

  // ---------------------------------------------------------------------
  // Appointments
  // ---------------------------------------------------------------------

  /** An appointment record from the server. */
  datatype Apt = Apt(
    id: string,
    clientName: Option<string>,
    sessionDate: string,
    sessionTime: string,
    status: string,
    sessionMode: string)

  datatype SessionKind = Video | Phone

  /** An appointment as the dashboard lists it. */
  datatype Appointment = Appointment(
    id: string,
    clientName: Option<string>,
    time: string,
    date: string,
    kind: SessionKind,
    status: string)

  /** mapAppointment: phone sessions stay phone, every other mode is shown
      as video. */
  function MapAppointment(a: Apt): (r: Appointment)
    ensures r.kind == Phone <==> a.sessionMode == "phone"
    ensures r.id == a.id && r.clientName == a.clientName && r.status == a.status
    ensures r.date == a.sessionDate && r.time == a.sessionTime
  {
    Appointment(a.id, a.clientName, a.sessionTime, a.sessionDate,
                if a.sessionMode == "phone" then Phone else Video, a.status)
  }

  function MapAll(s: seq<Apt>): (r: seq<Appointment>)
    ensures |r| == |s| && forall i :: 0 <= i < |s| ==> r[i] == MapAppointment(s[i])
  {
    seq(|s|, i requires 0 <= i < |s| => MapAppointment(s[i]))
  }

  /** Today's list: the appointments on `today`, in the server's order. */
  function Todays(apts: seq<Apt>, today: string): (r: seq<Appointment>)
    ensures forall x :: x in r <==> exists a :: a in apts && a.sessionDate == today && x == MapAppointment(a)
  {
    var on := Filter(apts, (a: Apt) => a.sessionDate == today);
    var r := MapAll(on);
    assert forall x :: x in r ==> exists a :: a in on && x == MapAppointment(a);
    r
  }

  /** One appointment: it is listed, mapped, exactly when it is today's.
      With TodaysAppend this fixes the whole list, multiplicities and
      order included. */
  lemma TodaysOne(a: Apt, today: string)
    ensures Todays([a], today) == if a.sessionDate == today then [MapAppointment(a)] else []
  {
    var p := (x: Apt) => x.sessionDate == today;
    assert [a][1..] == [];
    assert Filter([a], p) == if p(a) then [a] + Filter([a][1..], p) else Filter([a][1..], p);
  }

  /** The length of today's list is the number of today's appointments. */
  lemma TodaysLength(apts: seq<Apt>, today: string)
    ensures |Todays(apts, today)| == Count(apts, (x: Apt) => x.sessionDate == today)
  {
  }

  /** Today's list of a longer list extends today's list of its beginning,
      so the server's order is kept. */
  lemma TodaysAppend(a: seq<Apt>, b: seq<Apt>, today: string)
    ensures Todays(a + b, today) == Todays(a, today) + Todays(b, today)
  {
    FilterAppend(a, b, (x: Apt) => x.sessionDate == today);
  }

  /** `a.sessionDate > b` for strings. */
  predicate After(date: string, today: string) {
    !LexLe(date, today)
  }

  /** The upcoming comparator on (date, time): by date, then by time on the
      same date. */
  predicate NoLater(date1: string, time1: string, date2: string, time2: string) {
    if date1 == date2 then LexLe(time1, time2) else LexLe(date1, date2)
  }

  predicate AptLe(a: Apt, b: Apt) {
    NoLater(a.sessionDate, a.sessionTime, b.sessionDate, b.sessionTime)
  }

  lemma AptLeIsTotalPreorder()
    ensures TotalPreorder(AptLe)
  {
    forall a: Apt, b: Apt
      ensures AptLe(a, b) || AptLe(b, a)
    {
      LexLeTotal(a.sessionDate, b.sessionDate);
      LexLeTotal(a.sessionTime, b.sessionTime);
    }
    forall a: Apt, b: Apt, c: Apt | AptLe(a, b) && AptLe(b, c)
      ensures AptLe(a, c)
    {
      if a.sessionDate == b.sessionDate && b.sessionDate == c.sessionDate {
        LexLeTransitive(a.sessionTime, b.sessionTime, c.sessionTime);
      } else if a.sessionDate != b.sessionDate && b.sessionDate != c.sessionDate {
        LexLeTransitive(a.sessionDate, b.sessionDate, c.sessionDate);
        if a.sessionDate == c.sessionDate {
          LexLeAntisymmetric(a.sessionDate, b.sessionDate);
        }
      }
    }
  }

  /** The test `a.sessionDate > today` of the upcoming filter. */
  function IsLater(today: string): Apt -> bool {
    (a: Apt) => After(a.sessionDate, today)
  }

  /** The appointments booked for the same date and time as `c`: those the
      upcoming comparator cannot tell apart from it. */
  function SameSlot(c: Apt): Apt -> bool {
    (a: Apt) => a.sessionDate == c.sessionDate && a.sessionTime == c.sessionTime
  }

  /** The later appointments, ordered by date and time. */
  function UpcomingSorted(apts: seq<Apt>, today: string): (r: seq<Apt>)
    ensures Sorted(r, AptLe)
    ensures forall a :: a in r <==> a in apts && After(a.sessionDate, today)
    ensures forall a :: multiset(r)[a] == if After(a.sessionDate, today) then multiset(apts)[a] else 0
  {
    var later := Filter(apts, IsLater(today));
    AptLeIsTotalPreorder();
    SortBySorted(later, AptLe);
    SortByMembers(later, AptLe);
    forall a
      ensures multiset(later)[a] == if After(a.sessionDate, today) then multiset(apts)[a] else 0
    {
      FilterMultiset(apts, IsLater(today), a);
    }
    SortBy(later, AptLe)
  }

  /** The sort is stable, so appointments booked for the same later date
      and time keep the server's order. This order decides which of them
      `slice(0, 3)` shows. */
  lemma UpcomingKeepsServerOrder(apts: seq<Apt>, today: string, c: Apt)
    requires After(c.sessionDate, today)
    ensures Filter(UpcomingSorted(apts, today), SameSlot(c)) == Filter(apts, SameSlot(c))
  {
    var tie := SameSlot(c);
    forall y, z | tie(y) && tie(z)
      ensures AptLe(y, z)
    {
      LexLeTotal(y.sessionTime, z.sessionTime);
    }
    SortByKeepsTies(Filter(apts, IsLater(today)), AptLe, tie);
    FilterFilter(apts, IsLater(today), tie);
  }

  /** upcomingSessions: the first three of them. */
  function Upcoming(apts: seq<Apt>, today: string): (r: seq<Appointment>)
    ensures |r| <= 3
    ensures |r| == if |UpcomingSorted(apts, today)| < 3 then |UpcomingSorted(apts, today)| else 3
    ensures forall i :: 0 <= i < |r| ==> r[i] == MapAppointment(UpcomingSorted(apts, today)[i])
    ensures forall i :: 0 <= i < |r| ==> After(r[i].date, today)
    ensures forall i :: 0 <= i < |r| ==> exists a :: a in apts && r[i] == MapAppointment(a)
    ensures forall i, j :: 0 <= i < j < |r| ==> NoLater(r[i].date, r[i].time, r[j].date, r[j].time)
  {
    var s := UpcomingSorted(apts, today);
    var t := Take(s, 3);
    var r := MapAll(t);
    forall i | 0 <= i < |r|
      ensures After(r[i].date, today) && exists a :: a in apts && r[i] == MapAppointment(a)
    {
      assert t[i] == s[i] && s[i] in s;
    }
    forall i, j | 0 <= i < j < |r|
      ensures NoLater(r[i].date, r[i].time, r[j].date, r[j].time)
    {
      assert AptLe(s[i], s[j]);
    }
    r
  }

  /** The three shown are the earliest: every later appointment left out
      comes no earlier than each shown one. */
  lemma UpcomingAreEarliest(apts: seq<Apt>, today: string, a: Apt)
    requires a in apts && After(a.sessionDate, today)
    ensures var r := Upcoming(apts, today);
      MapAppointment(a) in r
      || (|r| == 3 && forall i :: 0 <= i < 3 ==> NoLater(r[i].date, r[i].time, a.sessionDate, a.sessionTime))
  {
    var s := UpcomingSorted(apts, today);
    var r := Upcoming(apts, today);
    var j :| 0 <= j < |s| && s[j] == a;
    if j < 3 {
      assert r[j] == MapAppointment(s[j]);
    } else {
      forall i | 0 <= i < 3
        ensures NoLater(r[i].date, r[i].time, a.sessionDate, a.sessionTime)
      {
        assert r[i] == MapAppointment(s[i]);
        assert AptLe(s[i], s[j]);
      }
    }
  }

  // ---------------------------------------------------------------------
  // Counts
  // ---------------------------------------------------------------------

  function ClientNames(apts: seq<Apt>): (r: seq<string>)
    ensures |r| == |apts| && forall i :: 0 <= i < |apts| ==> r[i] == OrDefault(apts[i].clientName, "")
  {
    seq(|apts|, i requires 0 <= i < |apts| => OrDefault(apts[i].clientName, ""))
  }

  /** totalClients: the size of the set of names, less one when the empty
      name (also standing for a missing one) is among them. */
  function TotalClients(apts: seq<Apt>): (n: int)
    ensures n == |ToSet(ClientNames(apts)) - {""}|
  {
    var names := ToSet(ClientNames(apts));
    if "" in names then |names| - 1 else |names|
  }

  /** totalClients counts the distinct non-empty client names. */
  lemma TotalClientsDistinctNames(apts: seq<Apt>)
    ensures TotalClients(apts)
            == |set a | a in apts && OrDefault(a.clientName, "") != "" :: OrDefault(a.clientName, "")|
  {
    var names := ClientNames(apts);
    var named := set a | a in apts && OrDefault(a.clientName, "") != "" :: OrDefault(a.clientName, "");
    forall x
      ensures x in named <==> x in ToSet(names) - {""}
    {
      if x in ToSet(names) - {""} {
        var i :| 0 <= i < |names| && names[i] == x;
        assert apts[i] in apts;
      }
    }
    assert named == ToSet(names) - {""};
  }

  /** `{ all, scheduled, completed, cancelled }` from the server. */
  datatype StatusCounts = StatusCounts(all: int, scheduled: int, completed: int, cancelled: int)

  /** totalSessions: the server's `all`, or when the server sends no counts
      the number of appointments received. */
  function TotalSessions(counts: Option<StatusCounts>, apts: seq<Apt>): (n: int)
    ensures counts.None? ==> n == |apts|
    ensures counts.Some? ==> n == counts.value.all
  {
    counts.GetOr(StatusCounts(|apts|, 0, 0, 0)).all
  }

  // ---------------------------------------------------------------------
  // Notifications
  // ---------------------------------------------------------------------

  /** A notification from the server; `elapsed` is the time since it was
      sent, in milliseconds. */
  datatype ServerNotification = ServerNotification(
    id: string, kind: string, content: string, elapsed: int, isRead: bool)

  datatype Notification = Notification(
    id: string, kind: string, message: string, time: string, read: bool)

  function MapNotification(n: ServerNotification): (r: Notification)
    ensures r.kind == if n.kind == "system" then "message" else n.kind
    ensures r.id == n.id && r.message == n.content && r.read == n.isRead
    ensures r.time == FormatRelativeTime(n.elapsed)
  {
    Notification(n.id, if n.kind == "system" then "message" else n.kind, n.content,
                 FormatRelativeTime(n.elapsed), n.isRead)
  }

  /** The notification list: the first four, with system notices shown as
      messages. */
  function Notifications(ns: seq<ServerNotification>): (r: seq<Notification>)
    ensures |r| == if |ns| < 4 then |ns| else 4
    ensures forall i :: 0 <= i < |r| ==> r[i] == MapNotification(ns[i])
  {
    var first := Take(ns, 4);
    seq(|first|, i requires 0 <= i < |first| => MapNotification(first[i]))
  }

  /** No shown notification is of type 'system', and every other type is
      shown as sent. */
  lemma NotificationKinds(ns: seq<ServerNotification>)
    ensures forall i :: 0 <= i < |Notifications(ns)| ==> Notifications(ns)[i].kind != "system"
    ensures forall i :: 0 <= i < |Notifications(ns)| && ns[i].kind != "system" ==>
              Notifications(ns)[i].kind == ns[i].kind
  {
  }
}
