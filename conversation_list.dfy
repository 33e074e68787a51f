/** The therapist's chat list (ConversationList): how long ago the last
    message came, the unread badge, the message preview and which row is
    highlighted. */
module ConversationList {
  import opened Text
  import opened Elapsed

  /** formatTimeAgo's text for `elapsed` milliseconds: "just now", then
      whole minutes, hours or days with "m ago", "h ago" or "d ago"; from a
      week on the locale date, left out here (""). */
  function FormatTimeAgo(elapsed: int): (r: string)
    ensures elapsed < MsPerMinute <==> r == "just now"
    ensures MsPerMinute <= elapsed < 60 * MsPerMinute ==> r == NatToString(elapsed / MsPerMinute) + "m ago"
    ensures 60 * MsPerMinute <= elapsed < 24 * MsPerHour ==> r == NatToString(elapsed / MsPerHour) + "h ago"
    ensures 24 * MsPerHour <= elapsed < 7 * MsPerDay ==> r == NatToString(elapsed / MsPerDay) + "d ago"
  {
    var b := Bucket(elapsed);
    match b
    case JustNow => "just now"
    case MinutesAgo(n) =>
      var t := NatToString(n) + "m ago";
      assert IsDigit(t[0]) && !IsDigit("just now"[0]);
      t
    case HoursAgo(n) =>
      var t := NatToString(n) + "h ago";
      assert IsDigit(t[0]) && !IsDigit("just now"[0]);
      t
    case DaysAgo(n) =>
      var t := NatToString(n) + "d ago";
      assert IsDigit(t[0]) && !IsDigit("just now"[0]);
      t
    case OnDate => ""
  }

  /** The number in a minutes, hours or days label reads back as the whole
      number of units elapsed. */
  lemma TimeAgoNamesWholeUnits(elapsed: int)
    requires MsPerMinute <= elapsed < 7 * MsPerDay
    ensures var r := FormatTimeAgo(elapsed);
      var unit := if elapsed < 60 * MsPerMinute then MsPerMinute
                  else if elapsed < 24 * MsPerHour then MsPerHour else MsPerDay;
      |r| > 5 && AllDigits(r[..|r| - 5]) && DecimalValue(r[..|r| - 5]) == elapsed / unit
  {
    var r := FormatTimeAgo(elapsed);
    var unit := if elapsed < 60 * MsPerMinute then MsPerMinute
                else if elapsed < 24 * MsPerHour then MsPerHour else MsPerDay;
    var n: nat := elapsed / unit;
    assert r[..|r| - 5] == NatToString(n);
    DecimalRoundTrip(n);
  }

  /** A conversation as the server sends it. `lastMessageElapsed` is the
      time since its last message, None when there is none. */
  datatype Conversation = Conversation(
    clientId: string,
    clientName: string,
    lastMessage: Option<string>,
    lastMessageElapsed: Option<int>,
    unreadCount: Option<int>)

  /** `conversation.unreadCount ?? 0` */
  function UnreadCount(c: Conversation): (n: int)
    ensures c.unreadCount.None? ==> n == 0
    ensures c.unreadCount.Some? ==> n == c.unreadCount.value
  {
    c.unreadCount.GetOr(0)
  }

  /** One row of the list as shown. */
  datatype Row = Row(
    name: string,
    preview: string,
    time: Option<string>,
    badge: Option<int>,
    highlighted: bool)

  /** The row of a conversation: the preview falls back to "No messages
      yet", the time appears only with a last message time, the badge only
      for unread messages, and the row is highlighted when its client is the
      selected one. */
  function RowOf(c: Conversation, selected: Option<string>): (r: Row)
    ensures r.name == c.clientName
    ensures r.preview != []
    ensures c.lastMessage.Some? && c.lastMessage.value != "" ==> r.preview == c.lastMessage.value
    ensures c.lastMessage.None? || c.lastMessage.value == "" ==> r.preview == "No messages yet"
    ensures r.time.Some? <==> c.lastMessageElapsed.Some?
    ensures r.time.Some? ==> r.time.value == FormatTimeAgo(c.lastMessageElapsed.value)
    ensures r.badge.Some? <==> UnreadCount(c) > 0
    ensures r.badge.Some? ==> r.badge.value == UnreadCount(c) && r.badge.value > 0
    ensures r.highlighted <==> selected == Some(c.clientId)
  {
    var unread := UnreadCount(c);
    Row(c.clientName,
        OrDefault(c.lastMessage, "No messages yet"),
        if c.lastMessageElapsed.Some? then Some(FormatTimeAgo(c.lastMessageElapsed.value)) else None,
        if unread > 0 then Some(unread) else None,
        selected == Some(c.clientId))
  }

  function Rows(cs: seq<Conversation>, selected: Option<string>): (r: seq<Row>)
    ensures |r| == |cs| && forall i :: 0 <= i < |cs| ==> r[i] == RowOf(cs[i], selected)
  {
    seq(|cs|, i requires 0 <= i < |cs| => RowOf(cs[i], selected))
  }

  /** With one conversation per client, at most one row is highlighted, and
      none when nothing is selected. */
  lemma AtMostOneHighlighted(cs: seq<Conversation>, selected: Option<string>)
    requires forall i, j :: 0 <= i < j < |cs| ==> cs[i].clientId != cs[j].clientId
    ensures forall i, j ::
              (0 <= i < |cs| && 0 <= j < |cs| && Rows(cs, selected)[i].highlighted
               && Rows(cs, selected)[j].highlighted) ==> i == j
    ensures selected.None? ==> forall i :: 0 <= i < |cs| ==> !Rows(cs, selected)[i].highlighted
  {
    var r := Rows(cs, selected);
    forall i, j | 0 <= i < |cs| && 0 <= j < |cs| && r[i].highlighted && r[j].highlighted
      ensures i == j
    {
      assert cs[i].clientId == selected.value == cs[j].clientId;
    }
  }
}
