/** The notification-history panel's deterministic parts: the colour
    constant, icon glyph and label of a severity, the relative-time text of a
    timestamp, and which entries a refresh shows under the current filter.

    Severities are the integer values of a ToastSeverity enum (its header is
    not part of this model; the values below are taken in declaration order), so values outside
    the enum reach the `default` branches. The panel's widgets are reduced to
    the list of items a refresh creates. */
module NotificationHistory {
  import opened Common

  const Info := 0
  const Success := 1
  const Warning := 2
  const Error := 3

  /** A stored notification. */
  datatype Entry = Entry(severity: int, title: string, message: string, timestampMs: nat, read: bool)

  /** What one list item is created with. */
  datatype Item = Item(severityLabel: string, title: string, message: string, timestamp: string,
                       colorConst: string, icon: seq<Byte>)

  type Byte = b: int | 0 <= b < 256

  // ---------------------------------------------------------------------
  // Severity presentation
  // ---------------------------------------------------------------------

  /** severity_to_color. */
  function SeverityToColor(severity: int): string
  {
    if severity == Error then "error_color"
    else if severity == Warning then "warning_color"
    else if severity == Success then "success_color"
    else "info_color"
  }

  /** The "severity" attribute of a list item. */
  function SeverityLabel(severity: int): string
  {
    if severity == Error then "error"
    else if severity == Warning then "warning"
    else if severity == Success then "success"
    else "info"
  }

  /** Each of error, warning and success has a colour constant of its own;
      every other value, INFO or not, gets the info colour, and the label
      follows the same split. */
  lemma SeverityColorsAndLabels(severity: int)
    ensures SeverityToColor(severity) == "info_color" <==> severity != Error && severity != Warning && severity != Success
    ensures SeverityLabel(severity) == "info" <==> SeverityToColor(severity) == "info_color"
    ensures SeverityToColor(Error) != SeverityToColor(Warning) && SeverityToColor(Error) != SeverityToColor(Success)
    ensures SeverityToColor(Warning) != SeverityToColor(Success)
    ensures SeverityToColor(severity) == SeverityLabel(severity) + "_color"
  {
  }

  /** The code point a three-byte UTF-8 sequence encodes. */
  function Utf8CodePoint(b: seq<Byte>): int
    requires |b| == 3
  {
    (b[0] as int % 16) * 4096 + (b[1] as int % 64) * 64 + b[2] as int % 64
  }

  /** The glyphs as the source spells them. */
  function SeverityIconAsWritten(severity: int): (g: seq<Byte>)
    ensures |g| == 3
  {
    if severity == Error then [0xEF, 0x81, 0x81]
    else if severity == Warning then [0xEF, 0x81, 0xB1]
    else if severity == Success then [0xEF, 0x80, 0x8C]
    else [0xEF, 0x81, 0x9A]
  }

  /** The error glyph as written encodes U+F041, not the exclamation
      triangle U+F071 that the warning glyph encodes and that its comment
      names. */
  lemma ErrorIconAsWrittenIsNotTriangle()
    ensures Utf8CodePoint(SeverityIconAsWritten(Error)) == 0xF041
    ensures Utf8CodePoint(SeverityIconAsWritten(Warning)) == 0xF071
  {
  }

  /** The code point each severity's icon is meant to show. */
  function IntendedIconCodePoint(severity: int): int
  {
    if severity == Error || severity == Warning then 0xF071
    else if severity == Success then 0xF00C
    else 0xF05A
  }

  /** severity_to_icon with the error glyph encoding U+F071. */
  function SeverityIcon(severity: int): (g: seq<Byte>)
    ensures |g| == 3
  {
    if severity == Error then [0xEF, 0x81, 0xB1]
    else if severity == Warning then [0xEF, 0x81, 0xB1]
    else if severity == Success then [0xEF, 0x80, 0x8C]
    else [0xEF, 0x81, 0x9A]
  }

  /** Every icon is the UTF-8 encoding of the glyph meant for it, and only
      the error glyph differs from the source's spelling. */
  lemma SeverityIconEncodesIntended(severity: int)
    ensures Utf8CodePoint(SeverityIcon(severity)) == IntendedIconCodePoint(severity)
    ensures SeverityIcon(severity)[0] == 0xEF && 0x80 <= SeverityIcon(severity)[1] < 0xC0 && 0x80 <= SeverityIcon(severity)[2] < 0xC0
    ensures severity != Error ==> SeverityIcon(severity) == SeverityIconAsWritten(severity)
  {
  }

  // ---------------------------------------------------------------------
  // format_timestamp
  // ---------------------------------------------------------------------

  const Minute := 60000
  const Hour := 3600000
  const Day := 86400000

  /** format_timestamp, with the tick reading passed in as `now`. */
  function FormatTimestamp(timestampMs: nat, now: nat): string
  {
    if timestampMs > now then "Just now"
    else
      var diff := now - timestampMs;
      if diff < Minute then "Just now"
      else if diff < Hour then NatToString(diff / Minute) + " min ago"
      else if diff < Day then
        var hours := diff / Hour;
        NatToString(hours) + " hour" + (if hours > 1 then "s" else "") + " ago"
      else
        var days := diff / Day;
        NatToString(days) + " day" + (if days > 1 then "s" else "") + " ago"
  }

  /** The text says "Just now" for a future timestamp or an age under a
      minute, and otherwise names the largest whole unit of the age: the
      count printed is the age rounded down to that unit, minutes run 1..59,
      hours 1..23, days from 1 up, and the unit is plural exactly when the
      count is above one. */
  lemma FormatTimestampMeaning(timestampMs: nat, now: nat)
    ensures var t := FormatTimestamp(timestampMs, now);
      (t == "Just now" <==> timestampMs > now || now - timestampMs < Minute) &&
      (timestampMs <= now && Minute <= now - timestampMs < Hour ==>
        exists m :: 1 <= m <= 59 && m * Minute <= now - timestampMs < (m + 1) * Minute &&
          t == NatToString(m) + " min ago") &&
      (timestampMs <= now && Hour <= now - timestampMs < Day ==>
        exists h :: 1 <= h <= 23 && h * Hour <= now - timestampMs < (h + 1) * Hour &&
          t == NatToString(h) + " hour" + (if h > 1 then "s" else "") + " ago") &&
      (timestampMs <= now && Day <= now - timestampMs ==>
        exists d :: 1 <= d && d * Day <= now - timestampMs < (d + 1) * Day &&
          t == NatToString(d) + " day" + (if d > 1 then "s" else "") + " ago")
  {
    var t := FormatTimestamp(timestampMs, now);
    if timestampMs <= now {
      var diff := now - timestampMs;
      if Minute <= diff {
        NotJustNow(NatToString(diff / (if diff < Hour then Minute else if diff < Day then Hour else Day)), t);
      }
      if Minute <= diff < Hour {
        var m := diff / Minute;
        assert m * Minute <= diff < (m + 1) * Minute;
      } else if Hour <= diff < Day {
        var h := diff / Hour;
        assert h * Hour <= diff < (h + 1) * Hour;
      } else if Day <= diff {
        var d := diff / Day;
        assert d * Day <= diff < (d + 1) * Day;
      }
    }
  }

  /** A text that starts with digits is not "Just now". */
  lemma NotJustNow(digits: string, t: string)
    requires |digits| > 0 && AllDigits(digits) && IsPrefix(digits, t)
    ensures t != "Just now"
  {
    assert t[0] == digits[0];
  }

  // ---------------------------------------------------------------------
  // The panel
  // ---------------------------------------------------------------------

  /** NotificationHistory::get_filtered: the entries of one severity, in order. */
  function Filtered(history: seq<Entry>, severity: int): (r: seq<Entry>)
    ensures forall i :: 0 <= i < |r| ==> r[i].severity == severity && r[i] in history
    ensures forall e :: e in history && e.severity == severity ==> e in r
    ensures |r| <= |history|
  {
    if |history| == 0 then []
    else
      var rest := Filtered(history[1..], severity);
      if history[0].severity == severity then [history[0]] + rest else rest
  }

  /** A single entry is kept exactly when it has the severity. */
  lemma FilteredOne(e: Entry, severity: int)
    ensures Filtered([e], severity) == if e.severity == severity then [e] else []
  {
    assert [e][1..] == [];
  }

  /** The filter keeps order and multiplicity: filtering a concatenation is
      concatenating the filtered parts, and one entry is kept exactly when it
      has the severity. Together these fix the result entry by entry. */
  lemma {:induction false} FilteredKeepsOrder(a: seq<Entry>, b: seq<Entry>, severity: int)
    ensures Filtered(a + b, severity) == Filtered(a, severity) + Filtered(b, severity)
    ensures forall e :: Filtered([e], severity) == if e.severity == severity then [e] else []
  {
    forall e ensures Filtered([e], severity) == if e.severity == severity then [e] else [] {
      FilteredOne(e, severity);
    }
    FilteredAppend(a, b, severity);
  }

  /** Filtering distributes over concatenation. */
  lemma {:induction false} FilteredAppend(a: seq<Entry>, b: seq<Entry>, severity: int)
    ensures Filtered(a + b, severity) == Filtered(a, severity) + Filtered(b, severity)
  {
    if |a| > 0 {
      assert (a + b)[0] == a[0] && (a + b)[1..] == a[1..] + b;
      FilteredAppend(a[1..], b, severity);
    } else {
      assert a + b == b;
    }
  }

  /** The entries a refresh lists: all of them for a negative filter,
      otherwise those of the filtered severity. */
  function Displayed(filter: int, history: seq<Entry>): (r: seq<Entry>)
    ensures filter < 0 ==> r == history
    ensures filter >= 0 ==> forall i :: 0 <= i < |r| ==> r[i].severity == filter
    ensures filter >= 0 ==> forall e :: e in history ==> (e in r <==> e.severity == filter)
  {
    if filter < 0 then history else Filtered(history, filter)
  }

  /** The displayed list is the order-preserving selection of the history:
      it distributes over concatenation, and a single entry is shown exactly
      when the filter is negative or matches its severity. */
  lemma DisplayedKeepsOrder(filter: int, a: seq<Entry>, b: seq<Entry>)
    ensures Displayed(filter, a + b) == Displayed(filter, a) + Displayed(filter, b)
    ensures forall e :: Displayed(filter, [e]) == if filter < 0 || e.severity == filter then [e] else []
  {
    FilteredKeepsOrder(a, b, filter);
  }

  /** The item created for one entry; an empty title reads "Notification",
      and the icon is severity_to_icon's glyph as the code spells it. */
  function ItemFor(e: Entry, now: nat): (it: Item)
    ensures it.title == (if e.title == "" then "Notification" else e.title)
    ensures it.message == e.message && it.timestamp == FormatTimestamp(e.timestampMs, now)
    ensures it.colorConst == SeverityToColor(e.severity) && it.severityLabel == SeverityLabel(e.severity)
    ensures it.icon == SeverityIconAsWritten(e.severity)
  {
    Item(SeverityLabel(e.severity), if e.title == "" then "Notification" else e.title, e.message,
         FormatTimestamp(e.timestampMs, now), SeverityToColor(e.severity), SeverityIconAsWritten(e.severity))
  }

  function ItemsFor(entries: seq<Entry>, now: nat): (items: seq<Item>)
    ensures |items| == |entries| && forall i :: 0 <= i < |entries| ==> items[i] == ItemFor(entries[i], now)
  {
    seq(|entries|, i requires 0 <= i < |entries| => ItemFor(entries[i], now))
  }

  function MarkAllRead(history: seq<Entry>): (r: seq<Entry>)
    ensures |r| == |history| && forall i :: 0 <= i < |r| ==> r[i] == history[i].(read := true)
  {
    seq(|history|, i requires 0 <= i < |history| => history[i].(read := true))
  }

  /** The panel's static state: the filter, whether the panel exists, and
      the items its list shows. The history itself is passed in and out. */
  class HistoryPanel {
    var currentFilter: int
    var created: bool
    var shown: seq<Item>

    constructor ()
      ensures currentFilter == -1 && !created && shown == []
    {
      currentFilter := -1;
      created := false;
      shown := [];
    }

    /** ui_panel_notification_history_refresh: without a panel nothing
        happens; otherwise the list is rebuilt from the entries the filter
        selects and every entry is marked read. */
    method Refresh(history: seq<Entry>, now: nat) returns (after: seq<Entry>)
      modifies this
      ensures currentFilter == old(currentFilter) && created == old(created)
      ensures !created ==> shown == old(shown) && after == history
      ensures created ==> shown == ItemsFor(Displayed(currentFilter, history), now) && after == MarkAllRead(history)
    {
      if !created {
        return history;
      }
      var entries := if currentFilter < 0 then history else Filtered(history, currentFilter);
      var items: seq<Item> := [];
      var i := 0;
      while i < |entries|
        invariant 0 <= i <= |entries|
        invariant items == ItemsFor(entries[..i], now)
      {
        items := items + [ItemFor(entries[i], now)];
        i := i + 1;
      }
      assert entries[..i] == entries;
      shown := items;
      after := MarkAllRead(history);
    }

    /** ui_panel_notification_history_create: `xmlCreated` says whether the
        panel's XML component could be instantiated. */
    method Create(xmlCreated: bool, history: seq<Entry>, now: nat) returns (after: seq<Entry>)
      modifies this
      ensures created == xmlCreated
      ensures xmlCreated ==> currentFilter == -1 && shown == ItemsFor(history, now) && after == MarkAllRead(history)
      ensures !xmlCreated ==> currentFilter == old(currentFilter) && shown == old(shown) && after == history
    {
      created := xmlCreated;
      if !xmlCreated {
        return history;
      }
      currentFilter := -1;
      after := Refresh(history, now);
    }

    /** The filter buttons: all, errors, warnings, info. */
    method FilterClicked(filter: int, history: seq<Entry>, now: nat) returns (after: seq<Entry>)
      requires filter == -1 || filter == Error || filter == Warning || filter == Info
      modifies this
      ensures currentFilter == filter && created == old(created)
      ensures created ==> shown == ItemsFor(Displayed(filter, history), now) && after == MarkAllRead(history)
      ensures !created ==> shown == old(shown) && after == history
    {
      currentFilter := filter;
      after := Refresh(history, now);
    }

    /** The "Clear All" button empties the history and refreshes. */
    method ClearClicked(now: nat) returns (after: seq<Entry>)
      modifies this
      ensures after == [] && currentFilter == old(currentFilter) && created == old(created)
      ensures created ==> shown == []
      ensures !created ==> shown == old(shown)
    {
      after := Refresh([], now);
    }
  }
}
