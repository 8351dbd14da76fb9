/** The delivery pipeline behind `deliver_dashboard` and `deliver_slice`: given
    what the renderer produced for one fired schedule, compose the message and
    decide which outbound calls are made — email through the mail transport
    and a message on a chat channel.  The plan is a value: the list of calls,
    in the order they are made.  Rendering, the mail transport and the chat
    client are collaborators; their results are inputs here. */
module Delivery {
  import opened Wrappers
  import opened Text

  datatype DeliveryType = Inline | Attachment

  /** What a chart schedule sends: a picture of the chart or its data. */
  datatype ReportFormat = Visualization | Data

  datatype Target = Dashboard(id: nat) | Slice(id: nat)

  /** Process-wide settings the pipeline reads: the base of the permalinks,
      the prefix of every subject and the optional bcc address. */
  datatype Settings = Settings(baseUrl: string, subjectPrefix: string, bcc: Option<string>)

  /** The data export of a chart: the CSV bytes and the table they parse into. */
  datatype CsvExport = CsvExport(csv: Bytes, rows: seq<seq<string>>)

  /** One outbound call. */
  datatype Dispatch =
    | Email(to: string, subject: string, body: string,
            data: Option<map<string, Bytes>>, images: Option<map<string, Bytes>>, bcc: Option<string>)
    | Slack(channel: string, subject: string, body: string, file: Bytes)

  /** The part of an email that every recipient gets: the HTML body, the
      attachments by file name and the inline images by content id. */
  datatype Content = Content(body: string, data: Option<map<string, Bytes>>, images: Option<map<string, Bytes>>)

  const ExploreText := "Explore in Superset"
  const ScreenshotFile := "screenshot.png"
  const ImageReference := "<img src=\"cid"
  const TableStart := "<table "

  /** Python truthiness of an optional string: present and not empty. */
  predicate Given(s: Option<string>) {
    s.Some? && |s.value| > 0
  }

  /** The characters that separate addresses in a recipient list: commas,
      semicolons and the ASCII white space (space, tab, line feed, carriage
      return, form feed, vertical tab). */
  const AddressSeparators: set<char> := {',', ';', ' ', '\t', '\n', '\r', '\U{000C}', '\U{000B}'}

  /** The addresses of a recipient list: the non-empty pieces between separators. */
  function AddressList(recipients: string): (r: seq<string>)
    ensures forall k :: 0 <= k < |r| ==> |r[k]| > 0 && Free(r[k], AddressSeparators)
  {
    NonEmpty(Split(recipients, AddressSeparators))
  }

  /** Writing addresses out with commas and reading them back gives them back. */
  lemma AddressListJoin(addresses: seq<string>)
    requires |addresses| >= 1
    requires forall k :: 0 <= k < |addresses| ==> |addresses[k]| > 0 && Free(addresses[k], AddressSeparators)
    ensures AddressList(Join(addresses, ',')) == addresses
  {
    SplitJoin(addresses, ',', AddressSeparators);
    NonEmptyKeeps(addresses);
  }

  function Permalink(settings: Settings, target: Target): string {
    settings.baseUrl + "/superset/" + (if target.Dashboard? then "dashboard" else "slice")
      + "/" + ShowNat(target.id) + "/"
  }

  function Subject(settings: Settings, title: string): string {
    settings.subjectPrefix + " " + title
  }

  /** The chat message: the title in bold, a blank line, then the permalink. */
  function SlackBody(title: string, url: string): string {
    "\n        *" + title + "*\n\n        <" + url + "|" + ExploreText + ">\n        "
  }

  function LinkLine(url: string): string {
    "<b><a href=\"" + url + "\">" + ExploreText + "</a></b><p></p>"
  }

  function ImageTag(msgid: string): string {
    ImageReference + ":" + msgid + "\">"
  }

  function Cells(tag: string, cells: seq<string>): string {
    if |cells| == 0 then "" else "<" + tag + ">" + cells[0] + "</" + tag + ">" + Cells(tag, cells[1..])
  }

  function TableRows(rows: seq<seq<string>>): string {
    if |rows| == 0 then "" else "<tr>" + Cells("td", rows[0]) + "</tr>" + TableRows(rows[1..])
  }

  /** The data of a chart as an HTML table: the first row is the header. */
  function TableHtml(rows: seq<seq<string>>): string {
    TableStart + "class=\"table table-striped\">"
      + (if |rows| == 0 then "" else "<tr>" + Cells("th", rows[0]) + "</tr>" + TableRows(rows[1..]))
      + "</table>"
  }

  /** The email content for a screenshot: referenced from the body by content
      id and carried as an inline image, or carried as an attachment. */
  function ImageContent(deliveryType: DeliveryType, png: Bytes, url: string, msgid: string): (c: Content)
    ensures c.data.Some? <==> deliveryType == Attachment
    ensures c.images.Some? <==> deliveryType == Inline
    ensures c.data.Some? ==> |c.data.value| == 1 && forall k :: k in c.data.value ==> c.data.value[k] == png
    ensures c.images.Some? ==> c.images.value.Keys == {msgid} && c.images.value[msgid] == png
    ensures LinkLine(url) <= c.body
  {
    match deliveryType
    case Attachment => Content(LinkLine(url), Some(map[ScreenshotFile := png]), None)
    case Inline => Content(LinkLine(url) + ImageTag(msgid), None, Some(map[msgid := png]))
  }

  /** The email content for a chart's data: the CSV as an attachment named
      after the chart, or the table itself in the body. */
  function DataContent(deliveryType: DeliveryType, name: string, csvExport: CsvExport, url: string): (c: Content)
    ensures c.images.None?
    ensures c.data.Some? <==> deliveryType == Attachment
    ensures c.data.Some? ==> c.data.value.Keys == {name + ".csv"} && c.data.value[name + ".csv"] == csvExport.csv
    ensures LinkLine(url) <= c.body
  {
    match deliveryType
    case Attachment => Content(LinkLine(url), Some(map[name + ".csv" := csvExport.csv]), None)
    case Inline => Content(LinkLine(url) + TableHtml(csvExport.rows), None, None)
  }

  /** One email per address, in the order of the addresses. */
  function MailEach(to: seq<string>, subject: string, c: Content, bcc: Option<string>): (r: seq<Dispatch>)
    ensures |r| == |to|
    ensures forall i :: 0 <= i < |r| ==> r[i].Email?
  {
    if |to| == 0 then []
    else [Email(to[0], subject, c.body, c.data, c.images, bcc)] + MailEach(to[1..], subject, c, bcc)
  }

  /** The email calls: one to the whole recipient list as a group, or one per address. */
  function EmailCalls(recipients: string, asGroup: bool, subject: string, c: Content, bcc: Option<string>): (r: seq<Dispatch>)
    ensures forall i :: 0 <= i < |r| ==> r[i].Email?
  {
    if asGroup then [Email(recipients, subject, c.body, c.data, c.images, bcc)]
    else MailEach(AddressList(recipients), subject, c, bcc)
  }

  /** All calls of one delivery: the emails when there are recipients, then the
      chat message when there is a channel. */
  function Dispatches(settings: Settings, target: Target, title: string, recipients: Option<string>,
                      channel: Option<string>, asGroup: bool, c: Content, file: Bytes): (r: seq<Dispatch>)
    ensures forall i :: 0 <= i < |r| ==> (r[i].Email? ==> Given(recipients)) && (r[i].Slack? ==> Given(channel))
    ensures Given(channel) <==> |r| > 0 && r[|r| - 1].Slack?
  {
    var subject := Subject(settings, title);
    var es := if Given(recipients) then EmailCalls(recipients.value, asGroup, subject, c, settings.bcc) else [];
    var chat := if Given(channel) then [ChatCall(settings, target, title, channel.value, file)] else [];
    EmailsThenChat(es, chat, Given(recipients), Given(channel));
    es + chat
  }

  /** Emails, if any are sent, followed by at most one chat message. */
  lemma EmailsThenChat(es: seq<Dispatch>, chat: seq<Dispatch>, mailing: bool, chatting: bool)
    requires forall i :: 0 <= i < |es| ==> es[i].Email?
    requires mailing || es == []
    requires chatting ==> |chat| == 1 && chat[0].Slack?
    requires !chatting ==> chat == []
    ensures forall i :: 0 <= i < |es + chat| ==> ((es + chat)[i].Email? ==> mailing) && ((es + chat)[i].Slack? ==> chatting)
    ensures chatting <==> |es + chat| > 0 && (es + chat)[|es + chat| - 1].Slack?
  {
  }

  /** The chat message of a delivery: the subject, the title and the permalink, and the artifact. */
  function ChatCall(settings: Settings, target: Target, title: string, channel: string, file: Bytes): (d: Dispatch)
    ensures d.Slack? && d.channel == channel && d.subject == Subject(settings, title) && d.file == file
  {
    Slack(channel, Subject(settings, title), SlackBody(title, Permalink(settings, target)), file)
  }

  /** `deliver_dashboard`: the screenshot of the dashboard is sent; a failed
      screenshot aborts the delivery before any call is made.  `msgid` is the
      content id the mail library would generate. */
  function DeliverDashboard(settings: Settings, id: nat, title: string, recipients: Option<string>,
                            channel: Option<string>, deliveryType: DeliveryType, asGroup: bool,
                            screenshot: Option<Bytes>, msgid: string): (r: Option<seq<Dispatch>>)
    ensures r.None? <==> screenshot.None?
  {
    if screenshot.None? then None
    else
      var url := Permalink(settings, Dashboard(id));
      Some(Dispatches(settings, Dashboard(id), title, recipients, channel, asGroup,
                      ImageContent(deliveryType, screenshot.value, url, msgid), screenshot.value))
  }

  /** `deliver_slice`: the chart's screenshot or its CSV export is sent,
      depending on the report format; a failed render or export aborts. */
  function DeliverSlice(settings: Settings, id: nat, name: string, recipients: Option<string>,
                        channel: Option<string>, deliveryType: DeliveryType, format: ReportFormat, asGroup: bool,
                        screenshot: Option<Bytes>, csvExport: Option<CsvExport>, msgid: string): (r: Option<seq<Dispatch>>)
    ensures format == Visualization ==> (r.None? <==> screenshot.None?)
    ensures format == Data ==> (r.None? <==> csvExport.None?)
  {
    var url := Permalink(settings, Slice(id));
    match format
    case Visualization =>
      if screenshot.None? then None
      else Some(Dispatches(settings, Slice(id), name, recipients, channel, asGroup,
                           ImageContent(deliveryType, screenshot.value, url, msgid), screenshot.value))
    case Data =>
      if csvExport.None? then None
      else Some(Dispatches(settings, Slice(id), name, recipients, channel, asGroup,
                           DataContent(deliveryType, name, csvExport.value, url), csvExport.value.csv))
  }

  // ---------------------------------------------------------------- properties

  /** How many emails a delivery sends. */
  function EmailCount(recipients: Option<string>, asGroup: bool): nat {
    if !Given(recipients) then 0 else if asGroup then 1 else |AddressList(recipients.value)|
  }

  lemma {:induction false} MailEachSpec(to: seq<string>, subject: string, c: Content, bcc: Option<string>)
    ensures |MailEach(to, subject, c, bcc)| == |to|
    ensures forall i :: 0 <= i < |to| ==>
      MailEach(to, subject, c, bcc)[i] == Email(to[i], subject, c.body, c.data, c.images, bcc)
    decreases |to|
  {
    if |to| > 0 {
      MailEachSpec(to[1..], subject, c, bcc);
    }
  }

  /** Whether `d` is an email with this subject, content and bcc. */
  predicate Carries(d: Dispatch, subject: string, c: Content, bcc: Option<string>) {
    d.Email? && d.subject == subject && d.body == c.body && d.data == c.data && d.images == c.images && d.bcc == bcc
  }

  /** The email calls: as many as there are addresses, or one for the group,
      all carrying the same message, addressed in the order of the list. */
  lemma EmailCallsSpec(recipients: string, asGroup: bool, subject: string, c: Content, bcc: Option<string>)
    ensures var es := EmailCalls(recipients, asGroup, subject, c, bcc);
      && |es| == (if asGroup then 1 else |AddressList(recipients)|)
      && (forall i :: 0 <= i < |es| ==> Carries(es[i], subject, c, bcc))
      && (asGroup ==> es[0].to == recipients)
      && (!asGroup ==> forall i :: 0 <= i < |es| ==> es[i].to == AddressList(recipients)[i])
  {
    if !asGroup {
      MailEachSpec(AddressList(recipients), subject, c, bcc);
    }
  }

  /** The shape of every delivery: first the emails, all with the same subject,
      content and bcc, addressed to the whole list as a group or to each address
      in turn; then exactly one chat message when a channel is given, carrying
      the artifact unchanged; nothing else. */
  lemma DispatchPlan(settings: Settings, target: Target, title: string, recipients: Option<string>,
                     channel: Option<string>, asGroup: bool, c: Content, file: Bytes)
    ensures var ds := Dispatches(settings, target, title, recipients, channel, asGroup, c, file);
      var n := EmailCount(recipients, asGroup);
      && |ds| == n + (if Given(channel) then 1 else 0)
      && (forall i :: 0 <= i < n ==> Carries(ds[i], Subject(settings, title), c, settings.bcc))
      && (Given(recipients) && asGroup ==> ds[0].to == recipients.value)
      && (Given(recipients) && !asGroup ==> forall i :: 0 <= i < n ==> ds[i].to == AddressList(recipients.value)[i])
      && (Given(channel) ==> ds[n] == ChatCall(settings, target, title, channel.value, file))
  {
    var subject := Subject(settings, title);
    var es := if Given(recipients) then EmailCalls(recipients.value, asGroup, subject, c, settings.bcc) else [];
    var chat := if Given(channel) then [ChatCall(settings, target, title, channel.value, file)] else [];
    var msg := if Given(channel) then chat[0] else Slack("", "", "", []);
    var ds := Dispatches(settings, target, title, recipients, channel, asGroup, c, file);
    assert ds == es + chat;
    EmailPart(recipients, asGroup, subject, c, settings.bcc);
    var addresses := if Given(recipients) then AddressList(recipients.value) else [];
    PlanFromParts(ds, es, chat, EmailCount(recipients, asGroup), subject, c, settings.bcc,
                  Given(recipients), asGroup, if Given(recipients) then recipients.value else "",
                  addresses, msg, Given(channel));
  }

  /** The plan of a delivery from its two parts: the e-mails, then at most one chat message. */
  lemma PlanFromParts(ds: seq<Dispatch>, es: seq<Dispatch>, chat: seq<Dispatch>, n: nat,
                      subject: string, c: Content, bcc: Option<string>,
                      mailing: bool, group: bool, recipients: string, addresses: seq<string>,
                      msg: Dispatch, chatting: bool)
    requires ds == es + chat && |es| == n
    requires chat == if chatting then [msg] else []
    requires forall i :: 0 <= i < n ==> Carries(es[i], subject, c, bcc)
    requires mailing && group ==> n >= 1 && es[0].Email? && es[0].to == recipients
    requires mailing && !group ==> |addresses| == n && forall i :: 0 <= i < n ==> es[i].Email? && es[i].to == addresses[i]
    ensures |ds| == n + (if chatting then 1 else 0)
    ensures forall i :: 0 <= i < n ==> Carries(ds[i], subject, c, bcc)
    ensures mailing && group ==> ds[0].Email? && ds[0].to == recipients
    ensures mailing && !group ==> forall i :: 0 <= i < n ==> ds[i].Email? && ds[i].to == addresses[i]
    ensures chatting ==> ds[n] == msg
  {
    ConcatParts(es, chat, n);
  }

  /** The e-mails of a delivery, when recipients are given. */
  lemma EmailPart(recipients: Option<string>, asGroup: bool, subject: string, c: Content, bcc: Option<string>)
    ensures var es := if Given(recipients) then EmailCalls(recipients.value, asGroup, subject, c, bcc) else [];
      && |es| == EmailCount(recipients, asGroup)
      && (forall i :: 0 <= i < |es| ==> Carries(es[i], subject, c, bcc))
      && (Given(recipients) && asGroup ==> es[0].to == recipients.value)
      && (Given(recipients) && !asGroup ==> forall i :: 0 <= i < |es| ==> es[i].to == AddressList(recipients.value)[i])
  {
    if Given(recipients) {
      EmailCallsSpec(recipients.value, asGroup, subject, c, bcc);
    }
  }

  /** Indexing a concatenation: the first `|es|` elements come from `es`, the next from `chat`. */
  lemma ConcatParts(es: seq<Dispatch>, chat: seq<Dispatch>, n: nat)
    requires |es| == n
    ensures |es + chat| == n + |chat|
    ensures forall i :: 0 <= i < n ==> (es + chat)[i] == es[i]
    ensures |chat| > 0 ==> (es + chat)[n] == chat[0]
  {
  }

  /** Without recipients no email is sent, whatever else is configured. */
  lemma NoRecipientsNoEmail(settings: Settings, target: Target, title: string, recipients: Option<string>,
                            channel: Option<string>, asGroup: bool, c: Content, file: Bytes)
    requires !Given(recipients)
    ensures forall d :: d in Dispatches(settings, target, title, recipients, channel, asGroup, c, file) ==> d.Slack?
  {
    DispatchPlan(settings, target, title, recipients, channel, asGroup, c, file);
  }

  /** The link line names the way back to the report. */
  lemma LinkLineExplores(url: string)
    ensures Contains(LinkLine(url), ExploreText)
  {
    ContainsItself(ExploreText);
    ContainsRight("<b><a href=\"" + url + "\">", ExploreText, ExploreText);
    ContainsLeft("<b><a href=\"" + url + "\">" + ExploreText, "</a></b><p></p>", ExploreText);
  }

  /** An inline screenshot travels as an image referenced from the body by its
      content id; nothing is attached. */
  lemma InlineImage(png: Bytes, url: string, msgid: string)
    ensures var c := ImageContent(Inline, png, url, msgid);
      && c.images == Some(map[msgid := png]) && c.data.None?
      && Contains(c.body, ImageReference) && Contains(c.body, ExploreText)
  {
    ContainsItself(ImageReference);
    ContainsLeft(ImageReference, ":", ImageReference);
    ContainsLeft(ImageReference + ":", msgid, ImageReference);
    ContainsLeft(ImageReference + ":" + msgid, "\">", ImageReference);
    ContainsRight(LinkLine(url), ImageTag(msgid), ImageReference);
    LinkLineExplores(url);
    ContainsLeft(LinkLine(url), ImageTag(msgid), ExploreText);
  }

  /** The fixed text around the permalink opens only `<a`, `<b`, `<p` and
      closing tags, so the link line opens any other tag only where the
      permalink does. */
  lemma LinkLineOpensNo(url: string, c: char)
    requires !OpensTag(url, c) && c != 'a' && c != 'b' && c != 'p' && c != '/' && c != '"'
    ensures !OpensTag(LinkLine(url), c)
  {
    var head := "<b><a href=\"";
    var tail := "\">" + ExploreText + "</a></b><p></p>";
    assert !OpensTag(head, c);
    assert !OpensTag(tail, c);
    OpensTagConcat(head, url, c);
    OpensTagConcat(head + url, tail, c);
    assert head + url + tail == LinkLine(url);
  }

  /** An attached screenshot is carried under "screenshot.png" and the body
      references no inline image (given a permalink that does not itself
      contain such a reference). */
  lemma AttachedImage(png: Bytes, url: string, msgid: string)
    requires !OpensTag(url, 'i')
    ensures var c := ImageContent(Attachment, png, url, msgid);
      && c.images.None? && c.data == Some(map[ScreenshotFile := png])
      && !Contains(c.body, ImageReference) && Contains(c.body, ExploreText)
  {
    LinkLineOpensNo(url, 'i');
    NoTagNoPiece(LinkLine(url), ImageReference, 'i');
    ContainsMiddle("<b><a href=\"" + url + "\">", ExploreText, "</a></b><p></p>");
  }

  /** The permalink adds no tag to the base address, other than a closing one. */
  lemma PermalinkOpensNo(settings: Settings, target: Target, c: char)
    requires !OpensTag(settings.baseUrl, c) && c != '/'
    ensures !OpensTag(Permalink(settings, target), c)
  {
    var kind := if target.Dashboard? then "dashboard" else "slice";
    var digits := ShowNat(target.id);
    assert !OpensTag("/superset/", c);
    assert !OpensTag("dashboard", c) && !OpensTag("slice", c);
    assert !OpensTag("/", c);
    DigitsOpenNoTag(digits, c);
    OpensTagConcat(settings.baseUrl, "/superset/", c);
    OpensTagConcat(settings.baseUrl + "/superset/", kind, c);
    OpensTagConcat(settings.baseUrl + "/superset/" + kind, "/", c);
    OpensTagConcat(settings.baseUrl + "/superset/" + kind + "/", digits, c);
    OpensTagConcat(settings.baseUrl + "/superset/" + kind + "/" + digits, "/", c);
  }

  lemma DigitsOpenNoTag(s: string, c: char)
    requires AllDigits(s)
    ensures !OpensTag(s, c)
  {
  }

  /** Chart data as an attachment: the CSV bytes under "<chart name>.csv", and
      nothing inline — the body is the link line alone, with neither a table
      nor an image reference (given a permalink that opens neither tag). */
  lemma AttachedData(name: string, csvExport: CsvExport, url: string)
    requires !OpensTag(url, 'i') && !OpensTag(url, 't')
    ensures var c := DataContent(Attachment, name, csvExport, url);
      && c.images.None? && c.data == Some(map[name + ".csv" := csvExport.csv])
      && !Contains(c.body, TableStart) && !Contains(c.body, ImageReference)
      && Contains(c.body, ExploreText)
  {
    LinkLineOpensNo(url, 'i');
    LinkLineOpensNo(url, 't');
    NoTagNoPiece(LinkLine(url), ImageReference, 'i');
    NoTagNoPiece(LinkLine(url), TableStart, 't');
    LinkLineExplores(url);
  }

  /** Chart data inline: the body holds the HTML table; nothing is attached. */
  lemma InlineData(name: string, csvExport: CsvExport, url: string)
    ensures var c := DataContent(Inline, name, csvExport, url);
      && c.images.None? && c.data.None? && Contains(c.body, TableStart) && Contains(c.body, ExploreText)
  {
    var rows := csvExport.rows;
    var header := "class=\"table table-striped\">";
    var inner := if |rows| == 0 then "" else "<tr>" + Cells("th", rows[0]) + "</tr>" + TableRows(rows[1..]);
    ContainsItself(TableStart);
    ContainsLeft(TableStart, header, TableStart);
    ContainsLeft(TableStart + header, inner, TableStart);
    ContainsLeft(TableStart + header + inner, "</table>", TableStart);
    ContainsRight(LinkLine(url), TableHtml(rows), TableStart);
    LinkLineExplores(url);
    ContainsLeft(LinkLine(url), TableHtml(rows), ExploreText);
  }

  /** The chat message of a chart delivery carries the raw artifact: the
      screenshot for a picture, the CSV bytes for data, inline or not. */
  lemma SliceChatCarriesArtifact(settings: Settings, id: nat, name: string, recipients: Option<string>,
                                 channel: Option<string>, deliveryType: DeliveryType, format: ReportFormat, asGroup: bool,
                                 screenshot: Option<Bytes>, csvExport: Option<CsvExport>, msgid: string)
    requires Given(channel)
    ensures var r := DeliverSlice(settings, id, name, recipients, channel, deliveryType, format, asGroup, screenshot, csvExport, msgid);
      r.Some? ==> |r.value| > 0 && r.value[|r.value| - 1] == Slack(channel.value, Subject(settings, name),
          SlackBody(name, Permalink(settings, Slice(id))),
          if format == Visualization then screenshot.value else csvExport.value.csv)
  {
    var url := Permalink(settings, Slice(id));
    if format == Visualization && screenshot.Some? {
      DispatchPlan(settings, Slice(id), name, recipients, channel, asGroup,
                   ImageContent(deliveryType, screenshot.value, url, msgid), screenshot.value);
    } else if format == Data && csvExport.Some? {
      DispatchPlan(settings, Slice(id), name, recipients, channel, asGroup,
                   DataContent(deliveryType, name, csvExport.value, url), csvExport.value.csv);
    }
  }
}
