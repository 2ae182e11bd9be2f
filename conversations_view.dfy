/**
 * The results view for the researcher: one row per member of the app with
 * that member's interaction record, its status label and severity, an
 * expandable read-only review of the dismissed exchanges, and CSV export of
 * one record or of all of them.
 */
module ConversationsView {
  import opened Types
  import Seqs
  import ParticipantInteraction

  /** The three status labels a row can show. */
  datatype StatusLabel = Complete | Incomplete | NotStarted

  /** `StatusLabel(started, complete)`: completion wins over having started. */
  function Label(started: bool, complete: bool): (l: StatusLabel)
    ensures l == Complete <==> complete
    ensures l == Incomplete <==> started && !complete
    ensures l == NotStarted <==> !started && !complete
  {
    if complete then Complete
    else if started then Incomplete
    else NotStarted
  }

  /** `interaction?.data.started`: false when there is no record or its payload is not an interaction. */
  predicate RecordStarted(rec: Option<AppData>)
  {
    rec.Some? && rec.value.data.InteractionData? && rec.value.data.interaction.started
  }

  /** `interaction?.data.completed`, read the same way. */
  predicate RecordCompleted(rec: Option<AppData>)
  {
    rec.Some? && rec.value.data.InteractionData? && rec.value.data.interaction.completed
  }

  /** The label a row shows for its record. */
  function RowLabel(rec: Option<AppData>): (l: StatusLabel)
    ensures rec.None? ==> l == NotStarted
  {
    Label(RecordStarted(rec), RecordCompleted(rec))
  }

  /** The colour of the status badge. */
  datatype Severity = Success | Warning | Error

  /** The badge severity: success when completed, else warning when started, else error. */
  function StatusSeverity(rec: Option<AppData>): (s: Severity)
    ensures s == Success <==> RecordCompleted(rec)
    ensures s == Warning <==> RecordStarted(rec) && !RecordCompleted(rec)
    ensures s == Error <==> !RecordStarted(rec) && !RecordCompleted(rec)
  {
    if RecordCompleted(rec) then Success
    else if RecordStarted(rec) then Warning
    else Error
  }

  /** The badge colour and the badge text always agree. */
  lemma SeverityMatchesLabel(rec: Option<AppData>)
    ensures StatusSeverity(rec) == Success <==> RowLabel(rec) == Complete
    ensures StatusSeverity(rec) == Warning <==> RowLabel(rec) == Incomplete
    ensures StatusSeverity(rec) == Error <==> RowLabel(rec) == NotStarted
  {
  }

  /** The records of type `'Interaction'`, in their stored order. */
  function InteractionRecords(appDatas: seq<AppData>): (r: seq<AppData>)
    ensures |r| <= |appDatas|
    ensures forall a :: a in r <==> a in appDatas && a.appDataType == InteractionType
    decreases |appDatas|
  {
    if |appDatas| == 0 then []
    else
      var rest := InteractionRecords(appDatas[1..]);
      assert forall a :: a in appDatas <==> a == appDatas[0] || a in appDatas[1..];
      if appDatas[0].appDataType == InteractionType then [appDatas[0]] + rest else rest
  }

  /** Whether a record is the member's interaction record. */
  predicate IsMemberRecord(a: AppData, member: Member)
  {
    a.appDataType == InteractionType && a.member.id == member.id
  }

  /**
   * The record a member's row shows: the first interaction record whose
   * owner is that member, if any.
   */
  function MemberInteraction(appDatas: seq<AppData>, member: Member): (r: Option<AppData>)
    ensures r.Some? ==> r.value in appDatas && IsMemberRecord(r.value, member)
    ensures r.None? <==> forall k :: 0 <= k < |appDatas| ==> !IsMemberRecord(appDatas[k], member)
  {
    var records := InteractionRecords(appDatas);
    var r := Seqs.Find(records, (a: AppData) => a.member.id == member.id);
    assert r.None? ==> forall k :: 0 <= k < |appDatas| ==> !IsMemberRecord(appDatas[k], member) by {
      if r.None? {
        forall k | 0 <= k < |appDatas| ensures !IsMemberRecord(appDatas[k], member) {
          if appDatas[k].appDataType == InteractionType {
            var j :| 0 <= j < |records| && records[j] == appDatas[k];
          }
        }
      }
    }
    r
  }

  /** The member's record of a non-empty list: its head when that is the member's record, else the one in the rest. */
  lemma MemberInteractionCons(appDatas: seq<AppData>, member: Member)
    requires |appDatas| > 0
    ensures MemberInteraction(appDatas, member) ==
      if IsMemberRecord(appDatas[0], member) then Some(appDatas[0]) else MemberInteraction(appDatas[1..], member)
  {
    var a := appDatas[0];
    var p := (x: AppData) => x.member.id == member.id;
    var records := InteractionRecords(appDatas);
    if a.appDataType == InteractionType {
      assert records == [a] + InteractionRecords(appDatas[1..]);
      assert records[1..] == InteractionRecords(appDatas[1..]);
      Seqs.FindCons(records, p);
    }
  }

  /** The record found is the first member record of the whole list: filtering by type first loses no earlier match. */
  lemma {:induction false} MemberInteractionIsFirst(appDatas: seq<AppData>, member: Member)
    ensures var r := MemberInteraction(appDatas, member);
      r.Some? ==> exists k :: (0 <= k < |appDatas| && appDatas[k] == r.value
        && forall j :: 0 <= j < k ==> !IsMemberRecord(appDatas[j], member))
    decreases |appDatas|
  {
    var r := MemberInteraction(appDatas, member);
    if |appDatas| > 0 && r.Some? {
      var rest := appDatas[1..];
      MemberInteractionCons(appDatas, member);
      if !IsMemberRecord(appDatas[0], member) {
        MemberInteractionIsFirst(rest, member);
        var k :| 0 <= k < |rest| && rest[k] == r.value
          && forall j :: 0 <= j < k ==> !IsMemberRecord(rest[j], member);
        assert appDatas[k + 1] == r.value;
        assert forall j :: 1 <= j < k + 1 ==> appDatas[j] == rest[j - 1];
      } else {
        assert appDatas[0] == r.value;
      }
    }
  }

  /** One CSV line's source: a message with the exchange and the interaction it belongs to. */
  datatype Entry = Entry(interaction: Interaction, exchange: Exchange, message: Message)

  /** The number of messages in a list of exchanges. */
  function MessageCount(exchanges: seq<Exchange>): nat
  {
    if |exchanges| == 0 then 0 else |exchanges[0].messages| + MessageCount(exchanges[1..])
  }

  /** The number of messages in all the interactions, dismissed exchanges or not. */
  function TotalMessages(data: seq<Interaction>): nat
  {
    if |data| == 0 then 0 else MessageCount(data[0].exchanges) + TotalMessages(data[1..])
  }

  /** The entries of one interaction's exchanges, exchange by exchange and message by message. */
  function ExchangeEntries(i: Interaction, exchanges: seq<Exchange>): (r: seq<Entry>)
    ensures |r| == MessageCount(exchanges)
    ensures forall x :: x in r ==> x.interaction == i && x.exchange in exchanges && x.message in x.exchange.messages
    decreases |exchanges|
  {
    if |exchanges| == 0 then []
    else
      var e := exchanges[0];
      seq(|e.messages|, j requires 0 <= j < |e.messages| => Entry(i, e, e.messages[j]))
      + ExchangeEntries(i, exchanges[1..])
  }

  /**
   * The nested `flatMap`s of `convertJsonToCsv`: one entry per message of
   * every exchange of every interaction, in that order.
   */
  function Entries(data: seq<Interaction>): (r: seq<Entry>)
    ensures |r| == TotalMessages(data)
    ensures forall x :: x in r ==> x.interaction in data && x.exchange in x.interaction.exchanges && x.message in x.exchange.messages
    decreases |data|
  {
    if |data| == 0 then []
    else ExchangeEntries(data[0], data[0].exchanges) + Entries(data[1..])
  }

  /** Every message of every exchange of every interaction has its entry. */
  lemma {:induction false} EveryMessageHasEntry(data: seq<Interaction>, a: nat, b: nat, m: Message)
    requires a < |data| && b < |data[a].exchanges| && m in data[a].exchanges[b].messages
    ensures Entry(data[a], data[a].exchanges[b], m) in Entries(data)
    decreases |data|
  {
    if a == 0 {
      ExchangeEntriesCover(data[0], data[0].exchanges, b, m);
    } else {
      EveryMessageHasEntry(data[1..], a - 1, b, m);
    }
  }

  lemma {:induction false} ExchangeEntriesCover(i: Interaction, exchanges: seq<Exchange>, b: nat, m: Message)
    requires b < |exchanges| && m in exchanges[b].messages
    ensures Entry(i, exchanges[b], m) in ExchangeEntries(i, exchanges)
    decreases |exchanges|
  {
    var e := exchanges[0];
    var own := seq(|e.messages|, j requires 0 <= j < |e.messages| => Entry(i, e, e.messages[j]));
    assert ExchangeEntries(i, exchanges) == own + ExchangeEntries(i, exchanges[1..]);
    if b == 0 {
      var j :| 0 <= j < |e.messages| && e.messages[j] == m;
      assert own[j] == Entry(i, e, m);
    } else {
      ExchangeEntriesCover(i, exchanges[1..], b - 1, m);
    }
  }

  /** Exporting two lists one after the other gives the entries of the first, then those of the second. */
  lemma {:induction false} EntriesAppend(a: seq<Interaction>, b: seq<Interaction>)
    ensures Entries(a + b) == Entries(a) + Entries(b)
    decreases |a|
  {
    if |a| == 0 {
      assert a + b == b;
    } else {
      assert (a + b)[0] == a[0];
      assert (a + b)[1..] == a[1..] + b;
      EntriesAppend(a[1..], b);
    }
  }

  /** Every message to export has a send time; `format` throws on a missing one. */
  predicate AllDated(data: seq<Interaction>)
  {
    forall x :: x in Entries(data) ==> x.message.sentAt.Some?
  }

  /** The CSV column titles. */
  const HeaderFields: seq<string> := ["Participant", "Sender", "Sent at", "Exchange", "Interaction", "Content", "Type"]

  /**
   * The seven values of one line: participant name, sender name, formatted
   * send time, exchange description, interaction description, content, and
   * `typeof content`, which is always "string".
   */
  function RowFields(x: Entry, fmt: Timestamp -> string): (r: seq<string>)
    requires x.message.sentAt.Some?
    ensures |r| == |HeaderFields|
  {
    [x.interaction.participant.name, x.message.sender.name, fmt(x.message.sentAt.value),
     x.exchange.description, x.interaction.description, x.message.content, "string"]
  }

  /** The data lines: each entry's values joined by ',' with no quoting. */
  function Rows(data: seq<Interaction>, fmt: Timestamp -> string): (r: seq<string>)
    requires AllDated(data)
    ensures |r| == TotalMessages(data)
  {
    var entries := Entries(data);
    seq(|entries|, k requires 0 <= k < |entries| => Seqs.Join(RowFields(entries[k], fmt), ','))
  }

  /**
   * `convertJsonToCsv`, with `format` as the parameter `fmt`: the header line,
   * then the data lines, joined by '\n'. A message without a send time makes
   * `format` throw, and then there is no CSV.
   */
  function ConvertJsonToCsv(data: seq<Interaction>, fmt: Timestamp -> string): (r: Option<string>)
    ensures r.None? <==> exists x :: x in Entries(data) && x.message.sentAt.None?
  {
    if AllDated(data) then Some(Seqs.Join([Seqs.Join(HeaderFields, ',')] + Rows(data, fmt), '\n'))
    else None
  }

  /** No value to export holds a ',' or a line break. */
  predicate NoSeparators(data: seq<Interaction>, fmt: Timestamp -> string)
    requires AllDated(data)
  {
    forall x, f :: x in Entries(data) && 0 <= f < |HeaderFields| ==> ',' !in RowFields(x, fmt)[f] && '\n' !in RowFields(x, fmt)[f]
  }

  /** The header line holds no line break and reads back at ',' as the seven column titles. */
  lemma HeaderReadBack()
    ensures '\n' !in Seqs.Join(HeaderFields, ',')
    ensures Seqs.Split(Seqs.Join(HeaderFields, ','), ',') == HeaderFields
  {
    var h := HeaderFields;
    assert forall f :: 0 <= f < |h| ==> ',' !in h[f] && '\n' !in h[f];
    if '\n' in Seqs.Join(h, ',') {
      Seqs.JoinChars(h, ',', '\n');
    }
    Seqs.SplitJoin(h, ',');
  }

  /**
   * A data line holds no line break and reads back at ',' as its seven
   * values, as long as no value holds a ',' or a line break.
   */
  lemma RowReadBack(x: Entry, fmt: Timestamp -> string)
    requires x.message.sentAt.Some?
    requires forall f :: 0 <= f < |HeaderFields| ==> ',' !in RowFields(x, fmt)[f] && '\n' !in RowFields(x, fmt)[f]
    ensures '\n' !in Seqs.Join(RowFields(x, fmt), ',')
    ensures Seqs.Split(Seqs.Join(RowFields(x, fmt), ','), ',') == RowFields(x, fmt)
  {
    var fields := RowFields(x, fmt);
    if '\n' in Seqs.Join(fields, ',') {
      Seqs.JoinChars(fields, ',', '\n');
    }
    Seqs.SplitJoin(fields, ',');
  }

  /**
   * Read back line by line, the CSV is the header, then one line per message
   * of every interaction, 1 + TotalMessages lines in all; and, as long as no
   * value holds a separator, the header splits at ',' into the seven column
   * titles and each data line into exactly the seven values of its message.
   */
  lemma CsvLines(data: seq<Interaction>, fmt: Timestamp -> string)
    requires AllDated(data) && NoSeparators(data, fmt)
    ensures var lines := Seqs.Split(ConvertJsonToCsv(data, fmt).value, '\n');
      && |lines| == 1 + TotalMessages(data)
      && Seqs.Split(lines[0], ',') == HeaderFields
      && forall k :: 0 <= k < TotalMessages(data) ==> Seqs.Split(lines[k + 1], ',') == RowFields(Entries(data)[k], fmt)
  {
    var rows := Rows(data, fmt);
    var all := [Seqs.Join(HeaderFields, ',')] + rows;
    HeaderReadBack();
    RowsReadBack(data, fmt);
    assert forall k :: 0 <= k < |rows| ==> all[k + 1] == rows[k];
    assert forall k :: 0 <= k < |all| ==> '\n' !in all[k] by {
      forall k | 0 <= k < |all| ensures '\n' !in all[k] {
        if k > 0 {
          assert all[k] == rows[k - 1];
        }
      }
    }
    Seqs.SplitJoin(all, '\n');
  }

  /** Every data line holds no line break and reads back at ',' as the values of its entry. */
  lemma RowsReadBack(data: seq<Interaction>, fmt: Timestamp -> string)
    requires AllDated(data) && NoSeparators(data, fmt)
    ensures forall k :: 0 <= k < |Rows(data, fmt)| ==>
      '\n' !in Rows(data, fmt)[k] && Seqs.Split(Rows(data, fmt)[k], ',') == RowFields(Entries(data)[k], fmt)
  {
    var rows := Rows(data, fmt);
    var entries := Entries(data);
    forall k | 0 <= k < |rows|
      ensures '\n' !in rows[k] && Seqs.Split(rows[k], ',') == RowFields(entries[k], fmt)
    {
      assert entries[k] in entries;
      RowReadBack(entries[k], fmt);
    }
  }

  /**
   * Without quoting, a ',' inside a value shifts the columns: a data line
   * splits into seven parts plus one per ',' its values hold, so a message
   * whose content holds a ',' no longer reads back as seven columns.
   */
  lemma CommaShiftsColumns(x: Entry, fmt: Timestamp -> string)
    requires x.message.sentAt.Some?
    ensures |Seqs.Split(Seqs.Join(RowFields(x, fmt), ','), ',')| == 7 + Seqs.CountAll(RowFields(x, fmt), ',')
    ensures ',' in x.message.content ==> |Seqs.Split(Seqs.Join(RowFields(x, fmt), ','), ',')| > 7
  {
    var fields := RowFields(x, fmt);
    Seqs.SplitJoinLength(fields, ',');
    if ',' in x.message.content {
      CountPositive(x.message.content, ',');
      CountAllAtLeast(fields, 5, ',');
    }
  }

  lemma {:induction false} CountPositive(s: string, c: char)
    requires c in s
    ensures Seqs.Count(s, c) > 0
    decreases |s|
  {
    if s[0] != c {
      assert c in s[1..];
      CountPositive(s[1..], c);
    }
  }

  lemma {:induction false} CountAllAtLeast(xs: seq<string>, k: nat, c: char)
    requires k < |xs|
    ensures Seqs.CountAll(xs, c) >= Seqs.Count(xs[k], c)
    decreases |xs|
  {
    if k > 0 {
      CountAllAtLeast(xs[1..], k - 1, c);
    }
  }

  /** What an export click leads to. */
  datatype ExportOutcome = NoDownload | Download(csv: string) | Throws

  /**
   * `exportJsonAsCsv`, without the file name and the download itself: an
   * empty list downloads nothing; otherwise the CSV is downloaded, unless
   * building it throws.
   */
  function ExportJsonAsCsv(data: seq<Interaction>, fmt: Timestamp -> string): (o: ExportOutcome)
    ensures |data| == 0 ==> o == NoDownload
    ensures |data| > 0 ==> (o == Throws <==> !AllDated(data))
    ensures o.Download? ==> |data| > 0 && ConvertJsonToCsv(data, fmt) == Some(o.csv)
  {
    if |data| == 0 then NoDownload
    else
      match ConvertJsonToCsv(data, fmt)
      case Some(csv) => Download(csv)
      case None => Throws
  }

  /**
   * The app writes no send time into a message, and `format` throws on the
   * missing one: exporting interactions that hold any message throws.
   */
  lemma ExportThrowsWhenUndated(data: seq<Interaction>, fmt: Timestamp -> string)
    requires TotalMessages(data) > 0
    requires forall x :: x in Entries(data) ==> x.message.sentAt.None?
    ensures ExportJsonAsCsv(data, fmt) == Throws
  {
    assert |data| > 0;
    assert Entries(data)[0] in Entries(data);
  }

  /** The interactions held by records, in order; a record whose payload is not an interaction contributes nothing. */
  function Payloads(records: seq<AppData>): (r: seq<Interaction>)
    ensures |r| <= |records|
    ensures forall i :: i in r <==> exists k :: 0 <= k < |records| && records[k].data == InteractionData(i)
    decreases |records|
  {
    if |records| == 0 then []
    else
      var rest := Payloads(records[1..]);
      assert forall k :: 1 <= k < |records| ==> records[k] == records[1..][k - 1];
      if records[0].data.InteractionData? then [records[0].data.interaction] + rest else rest
  }

  /** Whether "export all" takes a record's payload: an interaction record holding an interaction. */
  predicate Exported(a: AppData)
  {
    a.appDataType == InteractionType && a.data.InteractionData?
  }

  /** "Export all": the interactions of all interaction records. */
  function ExportAllData(appDatas: seq<AppData>): (r: seq<Interaction>)
    ensures forall a :: a in appDatas && Exported(a) ==> a.data.interaction in r
    ensures forall i :: i in r ==> exists a :: a in appDatas && Exported(a) && a.data == InteractionData(i)
  {
    var records := InteractionRecords(appDatas);
    assert forall a :: a in appDatas && Exported(a) ==> a.data.interaction in Payloads(records) by {
      forall a | a in appDatas && Exported(a)
        ensures a.data.interaction in Payloads(records)
      {
        var k :| 0 <= k < |records| && records[k] == a;
      }
    }
    Payloads(records)
  }

  /** The exported interactions, record by record: the independent reference for "export all". */
  function ExportedPayloads(appDatas: seq<AppData>): seq<Interaction>
    decreases |appDatas|
  {
    if |appDatas| == 0 then []
    else (if Exported(appDatas[0]) then [appDatas[0].data.interaction] else []) + ExportedPayloads(appDatas[1..])
  }

  /** "Export all" is the exported interactions record by record, in the order of the records. */
  lemma {:induction false} ExportAllDataInOrder(appDatas: seq<AppData>)
    ensures ExportAllData(appDatas) == ExportedPayloads(appDatas)
    decreases |appDatas|
  {
    if |appDatas| > 0 {
      var a := appDatas[0];
      var records := InteractionRecords(appDatas);
      if a.appDataType == InteractionType {
        assert records == [a] + InteractionRecords(appDatas[1..]);
        assert records[1..] == InteractionRecords(appDatas[1..]);
      } else {
        assert records == InteractionRecords(appDatas[1..]);
      }
      ExportAllDataInOrder(appDatas[1..]);
    }
  }

  /** The reference export of a concatenation concatenates the exports. */
  lemma {:induction false} ExportedPayloadsAppend(a: seq<AppData>, b: seq<AppData>)
    ensures ExportedPayloads(a + b) == ExportedPayloads(a) + ExportedPayloads(b)
    decreases |a|
  {
    if |a| == 0 {
      assert a + b == b;
    } else {
      assert (a + b)[0] == a[0];
      assert (a + b)[1..] == a[1..] + b;
      ExportedPayloadsAppend(a[1..], b);
    }
  }

  /** "Export all" keeps the order of the records: exporting a concatenation concatenates the exports. */
  lemma ExportAllDataAppend(a: seq<AppData>, b: seq<AppData>)
    ensures ExportAllData(a + b) == ExportAllData(a) + ExportAllData(b)
  {
    ExportAllDataInOrder(a + b);
    ExportAllDataInOrder(a);
    ExportAllDataInOrder(b);
    ExportedPayloadsAppend(a, b);
  }

  /** A row's own export: its record's interaction, or nothing when the row has no record. */
  function RowExportData(rec: Option<AppData>): (r: seq<Interaction>)
    ensures |r| <= 1
    ensures r == [] <==> rec.None? || !rec.value.data.InteractionData?
    ensures r != [] ==> r[0] == rec.value.data.interaction
  {
    if rec.Some? && rec.value.data.InteractionData? then [rec.value.data.interaction] else []
  }

  /** A member's row export is part of the full export, and a row without a record downloads nothing. */
  lemma RowExportWithinAll(appDatas: seq<AppData>, member: Member, fmt: Timestamp -> string)
    ensures forall i :: i in RowExportData(MemberInteraction(appDatas, member)) ==> i in ExportAllData(appDatas)
    ensures MemberInteraction(appDatas, member).None? ==> ExportJsonAsCsv(RowExportData(MemberInteraction(appDatas, member)), fmt) == NoDownload
  {
  }

  /**
   * What an expanded row hands to its read-only pane as `pastMessages`: for a
   * started interaction, the messages of its dismissed exchanges in order;
   * nothing (a warning is shown instead) when the record is missing or not
   * started. The pane as written declares no such prop and never shows it.
   */
  function ReviewHistory(rec: Option<AppData>): (r: Option<seq<Message>>)
    ensures r.Some? <==> RecordStarted(rec)
    ensures r.Some? ==> forall m :: m in r.value <==>
      exists k :: (0 <= k < |rec.value.data.interaction.exchanges| && rec.value.data.interaction.exchanges[k].dismissed
        && m in rec.value.data.interaction.exchanges[k].messages)
  {
    if RecordStarted(rec) then Some(ParticipantInteraction.PastMessages(rec.value.data.interaction.exchanges)) else None
  }

  /** The history the results view hands to the pane does not change when an exchange that is not dismissed is updated. */
  lemma ReviewMatchesParticipant(rec: Option<AppData>, updated: Exchange)
    requires RecordStarted(rec) && !updated.dismissed
    requires var xs := rec.value.data.interaction.exchanges;
      forall k :: 0 <= k < |xs| && xs[k].id == updated.id ==> !xs[k].dismissed
    ensures var i := rec.value.data.interaction;
      ReviewHistory(Some(rec.value.(data := InteractionData(i.(exchanges := ParticipantInteraction.ReplaceById(i.exchanges, updated))))))
        == ReviewHistory(rec)
  {
    ParticipantInteraction.PastMessagesIgnoreOpenUpdate(rec.value.data.interaction.exchanges, updated);
  }

  /** The expand button: collapses the row if it is the expanded one, else expands it (collapsing any other). */
  function ToggleExpanded(expanded: Option<int>, index: int): (r: Option<int>)
    ensures forall j :: r == Some(j) <==> j == index && expanded != Some(index)
    ensures r.None? <==> expanded == Some(index)
  {
    if expanded == Some(index) then None else Some(index)
  }

  /** Clicking the same row twice returns to that row expanded, or to it collapsed if it was expanded at first. */
  lemma ToggleTwice(expanded: Option<int>, index: int)
    ensures ToggleExpanded(ToggleExpanded(expanded, index), index) == (if expanded == Some(index) then Some(index) else None)
  {
  }
}
