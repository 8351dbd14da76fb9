/** The deliveries exercised for the sample dashboard "World Bank's Data" and
    the sample chart "Participants": which calls are made and what they carry. */
module DeliveryScenarios {
  import opened Wrappers
  import opened Text
  import opened Delivery

  const BaseUrl := "http://0.0.0.0:8080"
  const Prefix := "[Report] "
  const FirstAddress := "recipient1@superset.com"
  const SecondAddress := "recipient2@superset.com"
  const Recipients := "recipient1@superset.com, recipient2@superset.com"
  const BccAddress := "bcc@superset.com"
  const Channel := "#test_channel"
  const DashboardTitle := "World Bank's Data"
  const ChartName := "Participants"

  function Configured(bcc: Option<string>): Settings {
    Settings(BaseUrl, Prefix, bcc)
  }

  /** Splitting at the first separator: the piece before it, then the pieces of the rest. */
  lemma SplitAtFirst(s: string, a: string, c: char, rest: string)
    requires s == a + [c] + rest && c in AddressSeparators && Free(a, AddressSeparators)
    ensures Split(s, AddressSeparators) == [a] + Split(rest, AddressSeparators)
  {
    IndexOfFree(a, c, rest, AddressSeparators);
    assert s[..|a|] == a && s[|a| + 1..] == rest;
  }

  /** Two addresses separated by a comma and a space are read as those two addresses. */
  lemma CommaSpaceList(s: string, a: string, b: string)
    requires s == a + [','] + ([' '] + b)
    requires |a| > 0 && |b| > 0 && Free(a, AddressSeparators) && Free(b, AddressSeparators)
    ensures AddressList(s) == [a, b]
  {
    var seps := AddressSeparators;
    SplitAtFirst(s, a, ',', [' '] + b);
    SplitAtFirst([' '] + b, "", ' ', b);
    IndexOfFree(b, ',', "", seps);
    assert Split(b, seps) == [b];
    assert Split(s, seps) == [a, "", b];
    assert NonEmpty([b]) == [b];
    assert NonEmpty(["", b]) == NonEmpty([b]);
  }

  lemma SampleParts()
    ensures Recipients == FirstAddress + [','] + ([' '] + SecondAddress)
  {
  }

  lemma SampleAddressesFree()
    ensures Free(FirstAddress, AddressSeparators) && Free(SecondAddress, AddressSeparators)
  {
  }

  /** The sample recipient list names two addresses. */
  lemma SampleAddresses()
    ensures AddressList(Recipients) == [FirstAddress, SecondAddress]
  {
    SampleParts();
    SampleAddressesFree();
    CommaSpaceList(Recipients, FirstAddress, SecondAddress);
  }

  lemma BaseOpensNoTag(c: char)
    ensures !OpensTag(BaseUrl, c)
  {
  }

  /** Regrouping the pieces of a chat message around the digits of the id. */
  lemma Regroup(x1: string, x2: string, x3: string, x4: string, x5: string, x6: string, x7: string, n: string,
                x8: string, x9: string, x10: string, x11: string)
    ensures x1 + x2 + x3 + (x4 + x5 + x6 + x7 + n + x8) + x9 + x10 + x11
         == (x1 + x2 + x3 + x4 + x5 + x6 + x7) + n + (x8 + x9 + x10 + x11)
  {
  }

  lemma MessageTail()
    ensures "/" + "|" + ExploreText + ">\n        " == "/|Explore in Superset>\n        "
  {
    assert "/" + "|" == "/|";
    assert "/|" + ExploreText == "/|Explore in Superset";
  }

  /** The chat message text for the sample dashboard, as the tests spell it. */
  lemma DashboardSlackBody(id: nat)
    ensures SlackBody(DashboardTitle, Permalink(Configured(None), Dashboard(id)))
      == "\n        *" + "World Bank's Data" + "*\n\n        <" + "http://0.0.0.0:8080"
         + "/superset/dashboard/" + ShowNat(id) + "/|Explore in Superset>\n        "
  {
    Regroup("\n        *", DashboardTitle, "*\n\n        <", BaseUrl, "/superset/", "dashboard", "/", ShowNat(id),
            "/", "|", ExploreText, ">\n        ");
    assert "/superset/" + "dashboard" + "/" == "/superset/dashboard/";
    MessageTail();
  }

  /** The chat message text for the sample chart, as the tests spell it. */
  lemma ChartSlackBody(id: nat)
    ensures SlackBody(ChartName, Permalink(Configured(None), Slice(id)))
      == "\n        *" + "Participants" + "*\n\n        <" + "http://0.0.0.0:8080"
         + "/superset/slice/" + ShowNat(id) + "/|Explore in Superset>\n        "
  {
    Regroup("\n        *", ChartName, "*\n\n        <", BaseUrl, "/superset/", "slice", "/", ShowNat(id),
            "/", "|", ExploreText, ">\n        ");
    assert "/superset/" + "slice" + "/" == "/superset/slice/";
    MessageTail();
  }

  lemma SampleSubjects()
    ensures Subject(Configured(None), DashboardTitle) == "[Report]  World Bank's Data"
    ensures Subject(Configured(None), ChartName) == "[Report]  Participants"
  {
    assert Prefix + " " == "[Report]  ";
  }

  /** A dashboard delivered inline to the group: one email to the whole list,
      with the screenshot as an inline image referenced from the body. */
  lemma DashboardInline(id: nat, png: Bytes, msgid: string)
    ensures var r := DeliverDashboard(Configured(None), id, DashboardTitle, Some(Recipients), None,
                                      Inline, true, Some(png), msgid);
      && r.Some? && |r.value| == 1 && r.value[0].Email?
      && r.value[0].to == Recipients
      && r.value[0].data.None? && r.value[0].images == Some(map[msgid := png])
      && Contains(r.value[0].body, ImageReference) && Contains(r.value[0].body, ExploreText)
  {
    var s := Configured(None);
    var c := ImageContent(Inline, png, Permalink(s, Dashboard(id)), msgid);
    DispatchPlan(s, Dashboard(id), DashboardTitle, Some(Recipients), None, true, c, png);
    InlineImage(png, Permalink(s, Dashboard(id)), msgid);
  }

  /** A dashboard delivered as an attachment: the body references no inline
      image and the screenshot is attached as "screenshot.png". */
  lemma DashboardAttached(id: nat, png: Bytes, msgid: string)
    ensures var r := DeliverDashboard(Configured(None), id, DashboardTitle, Some(Recipients), None,
                                      Attachment, true, Some(png), msgid);
      && r.Some? && |r.value| == 1 && r.value[0].Email?
      && !Contains(r.value[0].body, ImageReference)
      && r.value[0].images.None? && r.value[0].data.Some?
      && ScreenshotFile in r.value[0].data.value && r.value[0].data.value[ScreenshotFile] == png
  {
    var s := Configured(None);
    var c := ImageContent(Attachment, png, Permalink(s, Dashboard(id)), msgid);
    DispatchPlan(s, Dashboard(id), DashboardTitle, Some(Recipients), None, true, c, png);
    BaseOpensNoTag('i');
    PermalinkOpensNo(s, Dashboard(id), 'i');
    AttachedImage(png, Permalink(s, Dashboard(id)), msgid);
  }

  /** Individual delivery to a list of two addresses and no channel: one email
      to each, in order, each with the configured bcc. */
  lemma TwoIndividualEmails(settings: Settings, target: Target, title: string, recipients: string,
                            c: Content, file: Bytes, a: string, b: string)
    requires AddressList(recipients) == [a, b]
    ensures var ds := Dispatches(settings, target, title, Some(recipients), None, false, c, file);
      && |ds| == 2
      && ds[0].Email? && ds[0].to == a && ds[0].bcc == settings.bcc
      && ds[1].Email? && ds[1].to == b && ds[1].bcc == settings.bcc
  {
    DispatchPlan(settings, target, title, Some(recipients), None, false, c, file);
  }

  /** Individual delivery to the two sample addresses: two emails, one per
      address, each carrying the configured bcc. */
  lemma DashboardIndividually(id: nat, png: Bytes, msgid: string)
    ensures var r := DeliverDashboard(Configured(Some(BccAddress)), id, DashboardTitle, Some(Recipients), None,
                                      Inline, false, Some(png), msgid);
      && r.Some? && |r.value| == 2
      && r.value[0].Email? && r.value[0].to == FirstAddress && r.value[0].bcc == Some(BccAddress)
      && r.value[1].Email? && r.value[1].to == SecondAddress && r.value[1].bcc == Some(BccAddress)
  {
    var s := Configured(Some(BccAddress));
    SampleAddresses();
    TwoIndividualEmails(s, Dashboard(id), DashboardTitle, Recipients,
                        ImageContent(Inline, png, Permalink(s, Dashboard(id)), msgid), png,
                        FirstAddress, SecondAddress);
  }

  /** A dashboard with no recipients and a channel: no email, one chat message
      with the "[Report]" subject, the title and the permalink, and the screenshot. */
  lemma DashboardToSlack(id: nat, png: Bytes, deliveryType: DeliveryType, asGroup: bool, msgid: string)
    ensures DeliverDashboard(Configured(None), id, DashboardTitle, None, Some(Channel),
                             deliveryType, asGroup, Some(png), msgid)
      == Some([Slack(Channel, "[Report]  World Bank's Data",
                     "\n        *" + "World Bank's Data" + "*\n\n        <" + "http://0.0.0.0:8080"
                       + "/superset/dashboard/" + ShowNat(id) + "/|Explore in Superset>\n        ",
                     png)])
  {
    var s := Configured(None);
    var c := ImageContent(deliveryType, png, Permalink(s, Dashboard(id)), msgid);
    DashboardSlackBody(id);
    SampleSubjects();
    DispatchPlan(s, Dashboard(id), DashboardTitle, None, Some(Channel), asGroup, c, png);
    var ds := Dispatches(s, Dashboard(id), DashboardTitle, None, Some(Channel), asGroup, c, png);
    assert ds == [ds[0]];
  }

  /** The chat message of every chart delivery below: "[Report]  Participants",
      the chart's permalink, and the artifact. */
  function ChartMessage(id: nat, file: Bytes): Dispatch {
    Slack(Channel, "[Report]  Participants",
          "\n        *" + "Participants" + "*\n\n        <" + "http://0.0.0.0:8080"
            + "/superset/slice/" + ShowNat(id) + "/|Explore in Superset>\n        ",
          file)
  }

  lemma ChartMessageIs(id: nat, file: Bytes)
    ensures Slack(Channel, Subject(Configured(None), ChartName),
                  SlackBody(ChartName, Permalink(Configured(None), Slice(id))), file) == ChartMessage(id, file)
  {
    ChartSlackBody(id);
    SampleSubjects();
  }

  /** A chart picture delivered inline: one email whose only inline image is
      the screenshot, then the chat message with the screenshot. */
  lemma ChartPictureInline(id: nat, png: Bytes, msgid: string)
    ensures var r := DeliverSlice(Configured(None), id, ChartName, Some(Recipients), Some(Channel),
                                  Inline, Visualization, true, Some(png), None, msgid);
      && r.Some? && |r.value| == 2
      && r.value[0].Email? && r.value[0].images == Some(map[msgid := png])
      && r.value[1] == ChartMessage(id, png)
  {
    var s := Configured(None);
    var c := ImageContent(Inline, png, Permalink(s, Slice(id)), msgid);
    DispatchPlan(s, Slice(id), ChartName, Some(Recipients), Some(Channel), true, c, png);
    ChartMessageIs(id, png);
  }

  /** A chart picture delivered as an attachment: the screenshot under
      "screenshot.png", then the chat message with the screenshot. */
  lemma ChartPictureAttached(id: nat, png: Bytes, msgid: string)
    ensures var r := DeliverSlice(Configured(None), id, ChartName, Some(Recipients), Some(Channel),
                                  Attachment, Visualization, true, Some(png), None, msgid);
      && r.Some? && |r.value| == 2
      && r.value[0].Email? && r.value[0].data == Some(map[ScreenshotFile := png])
      && r.value[1] == ChartMessage(id, png)
  {
    var s := Configured(None);
    var c := ImageContent(Attachment, png, Permalink(s, Slice(id)), msgid);
    DispatchPlan(s, Slice(id), ChartName, Some(Recipients), Some(Channel), true, c, png);
    ChartMessageIs(id, png);
  }

  /** Chart data as an attachment: the CSV under "Participants.csv", then the
      chat message with the CSV bytes. */
  lemma ChartDataAttached(id: nat, csvExport: CsvExport, msgid: string)
    ensures var r := DeliverSlice(Configured(None), id, ChartName, Some(Recipients), Some(Channel),
                                  Attachment, Data, true, None, Some(csvExport), msgid);
      && r.Some? && |r.value| == 2
      && r.value[0].Email? && r.value[0].data.Some?
      && "Participants.csv" in r.value[0].data.value && r.value[0].data.value["Participants.csv"] == csvExport.csv
      && !Contains(r.value[0].body, TableStart) && r.value[0].images.None?
      && r.value[1] == ChartMessage(id, csvExport.csv)
  {
    var s := Configured(None);
    var c := DataContent(Attachment, ChartName, csvExport, Permalink(s, Slice(id)));
    DispatchPlan(s, Slice(id), ChartName, Some(Recipients), Some(Channel), true, c, csvExport.csv);
    BaseOpensNoTag('i');
    BaseOpensNoTag('t');
    PermalinkOpensNo(s, Slice(id), 'i');
    PermalinkOpensNo(s, Slice(id), 't');
    AttachedData(ChartName, csvExport, Permalink(s, Slice(id)));
    assert ChartName + ".csv" == "Participants.csv";
    ChartMessageIs(id, csvExport.csv);
  }

  /** Chart data inline: nothing attached and a table in the body, then the
      chat message with the CSV bytes. */
  lemma ChartDataInline(id: nat, csvExport: CsvExport, msgid: string)
    ensures var r := DeliverSlice(Configured(None), id, ChartName, Some(Recipients), Some(Channel),
                                  Inline, Data, true, None, Some(csvExport), msgid);
      && r.Some? && |r.value| == 2
      && r.value[0].Email? && r.value[0].data.None? && Contains(r.value[0].body, TableStart)
      && r.value[1] == ChartMessage(id, csvExport.csv)
  {
    var s := Configured(None);
    var c := DataContent(Inline, ChartName, csvExport, Permalink(s, Slice(id)));
    DispatchPlan(s, Slice(id), ChartName, Some(Recipients), Some(Channel), true, c, csvExport.csv);
    InlineData(ChartName, csvExport, Permalink(s, Slice(id)));
    ChartMessageIs(id, csvExport.csv);
  }
}
