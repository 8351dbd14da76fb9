# Scheduled reports: occurrences, delivery plan and Slack retry

This project models four parts of Superset's scheduled e-mail and Slack reports in Dafny:

- **`next_schedules`** (`schedules.dfy`, `cron.dfy`, `calendar.dfy`). It parses a five-field
  crontab expression. It walks the minutes of the window `[start, stop)` in ascending order and
  yields those the expression matches. It drops a match that comes less than `resolution`
  seconds after the previously yielded one. Times are whole minutes since 1970-01-01 00:00
  (naive, no time zone). The calendar is the proleptic Gregorian one.
- **`deliver_dashboard` and `deliver_slice`** (`delivery.dfy`). A delivery is modelled as the
  list of calls it makes:
  - one e-mail to the whole recipient list, or one per address;
  - then one Slack message when a channel is set.
  
  Each call carries the arguments of the mocked `send_email_smtp` and
  `SlackNotification.deliver_message` that the tests inspect: the addressee, the subject, the
  body, the inline `images` or attached `data`, the bcc, and the artifact. The screenshot or the CSV export
  (rendered elsewhere) and the content id of an inline image are parameters.
- **`SlackNotification.deliver_message`** (`slack_notification.dfy`). It is one call of the chat
  client:
  - an upload when a file is given;
  - a plain post otherwise, which does not send the subject.
- **`deliver_slack_msg`** (`slack_util.dfy`). This is `deliver_message` under the retry decorator:
  - only a Slack API error is retried;
  - it makes at most five tries;
  - it waits 10, 20, 40 and 80 seconds between them.
  
  The retry loop is a method. The outcome of each attempt is a parameter. The method records the
  calls and the waits instead of sleeping.

`text.dfy` holds the decimal and splitting helpers shared by the parser and the address list.
`schedule_scenarios.dfy` and `delivery_scenarios.dfy` prove the expectations of
`tests/schedules_test.py` about the model.

Each operation is paired with a partner the proofs connect it to:

| operation | partner |
|---|---|
| crontab parser | formatter (round trip) |
| calendar | day-number and civil-date conversions (both directions) |
| generator loop | the functions `Schedules` / `Thin` / `Select` |
| address list | `Join` with commas |
| each Slack call | `Received`, what the chat service reads from it |
| retry method | `Attempts` / `Result` / `Delays` |

## Model

| member | source | states |
|---|---|---|
| Scheduler.NextSchedules | tests/schedules_test.py:103-121 | a malformed crontab gives None; otherwise the result is exactly the thinned list of matching minutes of the window |
| Scheduler.Enumerate | tests/schedules_test.py:109-121 | the minute-by-minute generator loop emits exactly `Thin(Select(fires, start, stop), resolution)` |
| Scheduler.SelectSpec | tests/schedules_test.py:96-107 | the minutes selected from `[a, b)` are exactly those satisfying the test, in strictly ascending order |
| Scheduler.SchedulesSound | tests/schedules_test.py:96-136 | every yielded occurrence lies in `[start, stop)` and matches the expression; occurrences strictly ascend |
| Scheduler.ThinGaps | tests/schedules_test.py:109-121 | consecutive occurrences are at least `resolution` seconds apart |
| Scheduler.ThinSpaced | tests/schedules_test.py:109-121 | any two occurrences are at least `resolution` seconds apart |
| Scheduler.ThinKeepsFirst | tests/schedules_test.py:112 | the first match of the window is always yielded |
| Scheduler.ThinDropsOnlyClose | tests/schedules_test.py:109-121 | a match is dropped only when a yielded occurrence precedes it by less than `resolution` seconds |
| Scheduler.ThinSpec | tests/schedules_test.py:109-121 | thinning yields only matches and keeps them ascending |
| Scheduler.ThinFine | tests/schedules_test.py:102-107 | at a resolution of one minute or less nothing is dropped |
| Scheduler.IncreasingUnique | tests/schedules_test.py:159-164 | two ascending sequences with the same elements are equal, which pins down the list of occurrences |
| Cron.Parse | tests/schedules_test.py:97 | a parsed expression has five fields whose every element lies within its field's bounds |
| Cron.ParseFormat | tests/schedules_test.py:154 | parsing the canonical text of any valid expression gives the expression back |
| Cron.OnStepMod | tests/schedules_test.py:148-154 | a stepped range `a-b/s` selects x exactly when a ≤ x ≤ b and s divides x − a |
| Cron.FieldAllowsWithin | tests/schedules_test.py:140-154 | every value a valid field allows lies within the field's bounds |
| Cron.FieldValues | tests/schedules_test.py:140-154 | a valid field allows at least one value, and its set of values holds every value it allows and nothing out of bounds |
| Cron.Matches | tests/schedules_test.py:139-159 | a minute matches when its minute, hour and month are allowed and its day passes the day rule of `Cron.DayRule`; `SchedulesSound` and the scenarios state what follows from it |
| Cron.DayRule | tests/schedules_test.py:140-154 | when either day field is the bare `*`, the other alone decides the day, so `* 3,5 5` means the Fridays of March and May |
| Calendar.CivilFromDaysSpec | tests/schedules_test.py:155-156 | every day number is the day number of a valid calendar date |
| Calendar.CivilFromDayNumber | tests/schedules_test.py:155-156 | a valid date is recovered from its day number |
| Calendar.DayNumberMonotone | tests/schedules_test.py:155-164 | an earlier date has a smaller day number |
| Calendar.DayNumberInjective | tests/schedules_test.py:155-164 | two valid dates with the same day number are the same date |
| Calendar.StampOfCivil | tests/schedules_test.py:160-164 | every minute is the time stamp of the valid date and time it falls in |
| Calendar.CivilOfStamp | tests/schedules_test.py:160-164 | a valid date and time is recovered from its time stamp |
| ScheduleScenarios.ParseEvery | tests/schedules_test.py:97 | `* * * * *` parses to the expression with every field unrestricted |
| ScheduleScenarios.ParseWider | tests/schedules_test.py:124 | `*/15 2,10 * * *` parses to every fifteenth minute of hours 2 and 10 |
| ScheduleScenarios.ParseComplex | tests/schedules_test.py:154 | `10-15,25-40/3 17 * 3,5 5` parses to the ranges, hour 17, months 3 and 5, and Friday |
| ScheduleScenarios.EveryMinuteScenario | tests/schedules_test.py:96-107 | at resolution 0, any hour gives 60 occurrences from the start to one minute before the stop |
| ScheduleScenarios.EveryTenMinutesScenario | tests/schedules_test.py:109-114 | at resolution 600 s, 6 occurrences from the start to ten minutes before the stop |
| ScheduleScenarios.EveryTwelveMinutesScenario | tests/schedules_test.py:116-121 | at resolution 720 s, 5 occurrences from the start to twelve minutes before the stop |
| ScheduleScenarios.WiderScenario | tests/schedules_test.py:123-136 | for every date and hour, the hour's occurrences are its four quarter hours when the hour is 2 or 10, and none otherwise |
| ScheduleScenarios.ComplexSchedules | tests/schedules_test.py:139-159 | over 2018 the occurrences are 17:mm on the Fridays of March and May, for the twelve chosen minutes, in time order |
| ScheduleScenarios.ComplexScenario | tests/schedules_test.py:155-164 | from 2018-01-01 to 2018-12-31 at resolution 60 s: 108 occurrences; the first, 60th, 61st and last are 2018-03-02 17:10, 2018-03-30 17:40, 2018-05-04 17:10 and 2018-05-25 17:40 |
| Text.ParseShowNat | tests/schedules_test.py:154 | reading back the decimal text of a number gives the number |
| Text.SplitJoin | tests/schedules_test.py:45 | splitting pieces joined by a separator, when the pieces contain no separator, gives the pieces back |
| Text.JoinSplit | tests/schedules_test.py:45 | joining the pieces of a split with the separator it found rebuilds the text |
| Delivery.AddressList | tests/schedules_test.py:241-255 | the addresses of a recipient list are non-empty and contain no separator |
| Delivery.AddressListJoin | tests/schedules_test.py:45 | addresses written out with commas are read back as the same addresses |
| Delivery.DeliverDashboard | tests/schedules_test.py:178-186 | a dashboard delivery is aborted, with no call made, exactly when there is no screenshot |
| Delivery.DeliverSlice | tests/schedules_test.py:311-320 | a chart delivery is aborted exactly when the artifact its format needs (screenshot or CSV export) is missing |
| Delivery.MailEachSpec | tests/schedules_test.py:241-255 | individual delivery sends one e-mail per address, in order, each with the same message |
| Delivery.MailEach | tests/schedules_test.py:241-255 | one call per address, and every call is an e-mail |
| Delivery.EmailCalls | tests/schedules_test.py:186-188 | every call of the e-mail step is an e-mail |
| Delivery.Dispatches | tests/schedules_test.py:166-468 | e-mails are sent only when recipients are given and a chat message only when a channel is; the chat message, when there is one, comes last |
| Delivery.ChatCall | tests/schedules_test.py:285-293 | the chat call goes to the given channel and carries the artifact unchanged |
| Delivery.ImageContent | tests/schedules_test.py:188-227 | the screenshot travels exactly once: as the one attachment for the attachment type, or as the one inline image under the content id for the inline type; the body starts with the link line |
| Delivery.DataContent | tests/schedules_test.py:412-458 | nothing is inline as an image; the CSV bytes are the one attachment "<chart name>.csv" exactly for the attachment type; the body starts with the link line |
| Delivery.EmailCallsSpec | tests/schedules_test.py:186-188 | one e-mail to the whole list as a group, or one per address; all carry the same subject, content and bcc |
| Delivery.DispatchPlan | tests/schedules_test.py:241-293 | the e-mails come first, all with the same subject, body, data, images and bcc; then exactly one Slack message with the "[Report]" subject, the title and permalink body, and the artifact, when a channel is set |
| Delivery.NoRecipientsNoEmail | tests/schedules_test.py:272-283 | without recipients no e-mail is sent |
| Delivery.LinkLineExplores | tests/schedules_test.py:195 | the body of every e-mail contains "Explore in Superset" |
| Delivery.InlineImage | tests/schedules_test.py:188-195 | an inline screenshot is carried in `images` under its content id, `data` is None, and the body references it with `<img src="cid` |
| Delivery.AttachedImage | tests/schedules_test.py:221-227 | an attached screenshot is carried in `data` under "screenshot.png", `images` is None, and the body has no `<img src="cid` |
| Delivery.PermalinkOpensNo | tests/schedules_test.py:222 | the permalink of a base address that opens no `<c` tag (c not `/`) opens none either |
| Delivery.LinkLineOpensNo | tests/schedules_test.py:222 | the link line around such a permalink opens no `<c` tag for any c other than `a`, `b`, `p`, `/` and `"` |
| Delivery.AttachedData | tests/schedules_test.py:412-414 | attached chart data is carried under "<chart name>.csv" with the CSV bytes, no image travels, and the body has neither a `<table ` nor an `<img src="cid` (for a permalink that opens neither tag) |
| Delivery.InlineData | tests/schedules_test.py:455-458 | inline chart data attaches nothing and the body contains `<table ` |
| Delivery.SliceChatCarriesArtifact | tests/schedules_test.py:416-424 | a chart's Slack message carries the raw artifact: the screenshot, or the CSV bytes for the data format |
| DeliveryScenarios.SampleAddresses | tests/schedules_test.py:45 | the sample list names the two addresses recipient1@superset.com and recipient2@superset.com |
| DeliveryScenarios.SampleSubjects | tests/schedules_test.py:289 | the prefix "[Report] " and a space give "[Report]  World Bank's Data" and "[Report]  Participants" |
| DeliveryScenarios.DashboardSlackBody | tests/schedules_test.py:290 | the chat text for the dashboard is the bold title, a blank line and the dashboard permalink with "Explore in Superset" |
| DeliveryScenarios.ChartSlackBody | tests/schedules_test.py:333 | the chat text for the chart is the bold title and the slice permalink |
| DeliveryScenarios.DashboardInline | tests/schedules_test.py:166-195 | one e-mail to the whole list, no data, the screenshot under the content id, and a body with `<img src="cid` and "Explore in Superset" |
| DeliveryScenarios.DashboardAttached | tests/schedules_test.py:197-227 | one e-mail, no images, "screenshot.png" attached, and no `<img src="cid` in the body |
| DeliveryScenarios.DashboardIndividually | tests/schedules_test.py:229-256 | two e-mails, to each sample address in turn, each with the configured bcc |
| DeliveryScenarios.DashboardToSlack | tests/schedules_test.py:258-293 | no e-mail; exactly one Slack call to "#test_channel" with the expected subject, text and screenshot |
| DeliveryScenarios.ChartPictureInline | tests/schedules_test.py:295-336 | one e-mail with the screenshot as its image, then the chart's Slack message with the screenshot |
| DeliveryScenarios.ChartPictureAttached | tests/schedules_test.py:338-378 | one e-mail with "screenshot.png" attached, then the chart's Slack message with the screenshot |
| DeliveryScenarios.ChartDataAttached | tests/schedules_test.py:380-424 | one e-mail with "Participants.csv" holding the CSV, no image and no `<table ` in the body, then the chart's Slack message with the CSV |
| DeliveryScenarios.ChartDataInline | tests/schedules_test.py:426-468 | one e-mail with no data and a `<table ` in the body, then the chart's Slack message with the CSV |
| SlackNotification.DeliverMessage | tests/reports/notification/slack_tests.py:31-62 | an upload call is made exactly when a file is given, a plain post otherwise |
| SlackNotification.ReceivedUnchanged | tests/reports/notification/slack_tests.py:31-62 | the channel, the body and the file reach the chat service unchanged, whichever call is made |
| SlackNotification.CallArguments | tests/reports/notification/slack_tests.py:37-45 | the keyword arguments are exactly channels, file, initial_comment and title for an upload, and channel and text for a post |
| SlackNotification.SubjectOnlyAsTitle | tests/reports/notification/slack_tests.py:47-62 | the subject is sent only as the title of an upload; a post does not depend on it |
| SlackNotification.UploadWithFile | tests/reports/notification/slack_tests.py:31-45 | the test message with an image is the upload with the four expected arguments |
| SlackNotification.PostWithoutFile | tests/reports/notification/slack_tests.py:47-62 | the test message without a file is the post with the two expected arguments |
| SlackUtil.AttemptsFrom | superset/tasks/slack_util.py:26 | from attempt k on, at least one and at most the remaining tries are made |
| SlackUtil.Attempts | superset/tasks/slack_util.py:26 | never more calls than tries, and at least one call exactly when any try is allowed |
| SlackUtil.Result | superset/tasks/slack_util.py:26-33 | no tries means a normal return; otherwise the caller sees a normal return exactly when the last call succeeded, and else that call's error |
| SlackUtil.AttemptsSpec | superset/tasks/slack_util.py:26 | attempts go on exactly while they fail with a Slack API error and tries remain; at least one call is made |
| SlackUtil.RetryDeliver | superset/tasks/slack_util.py:26-33 | the retry loop calls `deliver_message` `Attempts` times, always with the same arguments; it waits `delay·backoff^k` after the k-th retried failure and ends as `Result` says |
| SlackUtil.DeliverSlackMsg | superset/tasks/slack_util.py:26-33 | `deliver_slack_msg` is the retry loop under five tries, ten seconds and doubling: one to five calls with the same arguments, and a wait after every call but the last |
| SlackUtil.SlackDelays | superset/tasks/slack_util.py:26 | the four possible waits are 10, 20, 40 and 80 seconds |
| SlackUtil.SlackBounds | superset/tasks/slack_util.py:26 | between one and five calls; the waits are a prefix of 10, 20, 40, 80, so at most 150 seconds in all |
| SlackUtil.SuccessStops | superset/tasks/slack_util.py:26-33 | a success after Slack API errors ends the retrying, and the caller sees a normal return |
| SlackUtil.OtherErrorPropagates | superset/tasks/slack_util.py:26 | any other error is not retried and reaches the caller after that call |
| SlackUtil.ExhaustedRaisesLast | superset/tasks/slack_util.py:26 | when every try fails with a Slack API error, all tries are made and the last error reaches the caller |
| SlackUtil.FourErrorsThenSuccess | superset/tasks/slack_util.py:26-33 | four Slack API errors and then a success: five calls, waits of 10, 20, 40 and 80 seconds, and a normal return |
| SlackUtil.FiveErrors | superset/tasks/slack_util.py:26-33 | five Slack API errors: five calls, then the fifth error reaches the caller |

## Left out

- The module `superset/tasks/schedules.py` is not part of this model. The behaviour of
  `next_schedules`, `deliver_dashboard` and `deliver_slice` is modelled from what the tests
  require of them. Where the tests leave a choice, the model makes the plainest one (below).
- Scheduler.NextSchedules: a malformed crontab yields None. The tests never show how the
  original reports one.
- Cron.Matches: with both day fields restricted, the model follows the crontab convention that
  either field suffices (`Cron.DayRule`; `0 0 13 * 5` fires on every 13th and every Friday);
  no test exercises it. A day field counts as unrestricted only when it is the bare `*`; a
  stepped star such as `*/2` counts as restricted.
- Delivery.DeliverDashboard, Delivery.DeliverSlice: a missing screenshot or CSV export aborts the
  delivery before any call is made. The tests only run with the artifact present, so the abort
  is the model's reading.
- Scheduler.Enumerate: the first match of the window is always yielded. A "previous occurrence"
  seeded before the start of the window is not modelled.
- Time zones and seconds are not modelled: times are whole minutes of a naive clock. The start of
  a window that `datetime.now()` gives in the tests is a parameter. Times are natural numbers of
  minutes from 1970-01-01 00:00, so a window before 1970 cannot be expressed.
- Delivery.DeliverDashboard: screenshots are rendered elsewhere. The rendered bytes, or their
  absence, are a parameter, and so is the CSV export of a chart. Both the HTTP fetch and the
  rendering are left out.
- Delivery.DeliverDashboard: a screenshot that is present but empty counts as present. Python
  would treat empty bytes as false; the tests never supply empty bytes.
- Delivery.InlineImage: the content id of an inline image is a parameter. It stands in for the
  random id the mail library generates.
- Delivery.TableHtml: the table is a plain `<table class="table table-striped">` with a header
  row. The exact HTML the pandas rendering produces is not modelled. The tests only require
  `<table ` in the body. The rows of a `CsvExport` are given alongside its bytes; that they are
  the parse of those bytes is not modelled.
- Delivery.AddressList: `superset/utils/core.py` is not part of this model. Addresses are split at
  commas, semicolons and ASCII white space; the other Unicode white space characters that a
  Python `\s` also matches are not separators here.
- Delivery.LinkLine: the e-mail body holds only the link line and, for inline content, the image
  tag or table. The rest of the e-mail template and its translation with gettext are left out.
- SlackNotification.DeliverMessage: a file is bytes. The source also accepts a string or an open
  file object, which are not modelled. A present but empty file still makes an upload; the
  tests never send an empty file.
- SMTP, the Slack `WebClient`, the database session and the report schedule objects are left
  out. The model records the arguments of each call instead.
- SlackUtil.RetryDeliver: sleeping is not modelled; each wait is recorded in seconds. The
  decorator's `tries=5` allows five calls in all. The model follows that and not "retries
  after a sixth failure".
- `test_slack_client_compatibility` needs a live Slack client, so it is not modelled.
- The front-end file `ExploreChartHeader_spec.jsx` is not modelled; it concerns the
  chart-header menu, not scheduling or delivery.
