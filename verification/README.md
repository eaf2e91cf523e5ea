# Risk-state pipeline of the senior-care service, in Dafny

This project models the core of a Spring service that watches over seniors who
live with a talking care doll. The service:

- keeps a risk state for each senior: POSITIVE, DANGER, CRITICAL or EMERGENCY;
- changes that state when an uploaded conversation log has been analysed, or
  when an administrator decides it by hand;
- records every change in an audit trail;
- notifies every enabled administrator, both in the database and over live
  server-sent-event connections.

Around this pipeline the model also covers:

- the bookkeeping services for seniors, dolls, members and notifications;
- the read queries over analysis results and the dashboard;
- the validation of the two request forms;
- the route-permission table and the bearer-token filter;
- the global exception handler.

How the model is organised:

- **Services as one object.** `Services.CareSystem` holds every table the
  services share:
  - seniors, dolls, analysis results, members, notifications and
    state-history rows, with their identity generators;
  - the username-to-emitter map of live connections;
  - the log of delivered pushes;
  - the log of published state-change events.

  Each service operation is one method on it. Dashboard assembly from the
  query rows is a free method, `Dashboard.GetDashboardData`, which
  `Services.CareSystem.GetDashboardData` runs over the tables.
- **Updated-in-place entities are classes.** `Analysis.OverallResult`,
  `Analysis.Dialogue`, `Members.Member` and `Security.RequestContext` are
  classes, because the source updates their fields in place.
- **Everything else is a value.** Senior records, history rows,
  notifications and requests are datatypes.
- **Publishing an event.** Publishing a `SeniorStateChangedEvent` calls the
  two listeners directly, the history listener first. What publishing and
  fan-out do to the event log, the history and notification tables and the
  live connections is specified as values: `Publishing.PublishOf` and
  `Publishing.FanOutOf`. The methods are proved equal to those functions.
- **The environment of one call is an input (`Services.Env`).** It carries:
  - the clock;
  - whether a send over a given emitter succeeds;
  - whether either listener fails.
- **Other inputs:**
  - the CSV records, already split into columns;
  - the timestamp parser;
  - the analysis server;
  - the password encoder;
  - the JWT claim decoder;
  - for the dashboard: the order in which findAll lists the seniors, the
    rows of the latest-state-change query, and how a timestamp and a result
    entity print in an error message.

## Model

| member | source | states |
|---|---|---|
| Domain.AllRisksListsEachOnce | src/main/java/com/project/service/DashboardService.java:63-65 | Risk.values() lists each of the four risks exactly once, so every state gets one dashboard list |
| Text.TrimEmptyIffBlank | src/main/java/com/project/service/AnalyzeService.java:80-84 | trimming leaves nothing exactly when the text is blank; otherwise the trimmed text starts and ends with a significant character |
| Text.DecimalInjective | src/main/java/com/project/service/NotificationService.java:67 | the decimal rendering of an id identifies the id, so a notification's resource id names exactly one result or senior |
| Text.RemoveAllAbsent | src/main/java/com/project/config/filter/JWTAuthorizationFilter.java:38 | replace with an empty string leaves a text that does not contain the target unchanged |
| Seniors.ProfileOfRoundTrip | src/main/java/com/project/service/SeniorService.java:228-275 | building the address, guardian, medical info and senior from a form loses nothing: the form can be read back from the stored profile |
| Seniors.ProfileOfInjective | src/main/java/com/project/service/SeniorService.java:228-275 | two forms with the same doll that differ anywhere give different stored profiles |
| SeniorRequests.PhoneParts | src/main/java/com/project/dto/request/SeniorRequestDto.java:32-34 | a number the phone pattern accepts splits into 2-3, 3-4 and 4 ASCII digits joined by dashes, which rebuild it |
| SeniorRequests.PhoneComplete | src/main/java/com/project/dto/request/SeniorRequestDto.java:32-34 | every number built from such digit groups is accepted, so the matcher accepts exactly the language of the regular expression |
| SeniorRequests.PhoneShape | src/main/java/com/project/dto/request/SeniorRequestDto.java:53-55 | an accepted number has 11 to 13 characters, digits at both ends and exactly two dashes |
| SeniorRequests.ViolationsEmptyIffValid | src/main/java/com/project/dto/request/SeniorRequestDto.java:15-63 | the form produces no violation if and only if every @NotBlank text is non-blank, both phones match and every @NotNull value is present |
| SeniorRequests.PhoneFieldErrors | src/main/java/com/project/dto/request/SeniorRequestDto.java:32-34 | a null phone is reported only by @NotBlank, since @Pattern accepts null; a blank one by both constraints; a well-formed one by neither |
| SeniorRequests.OptionalFieldsUnconstrained | src/main/java/com/project/dto/request/SeniorRequestDto.java:38-63 | address detail, notes, diseases and medications never change the validation outcome |
| SeniorRequests.StateChangeViolations | src/main/java/com/project/dto/request/UpdateSeniorStateRequestDto.java:10-17 | at most three violations, and none exactly when the id is null or positive, the state is present and the reason is non-blank |
| StateHistory.FromEventRoundTrip | src/main/java/com/project/listener/SeniorStateHistoryListener.java:26-31 | the history row copies the event verbatim, including a null previous state, under the given id and time |
| StateHistory.HistoryOfSpec | src/main/java/com/project/persistence/SeniorStateHistoryRepository.java:10 | the listing holds exactly the senior's rows, as often as stored, newest first |
| StateHistory.HistoryOfOtherUnchanged | src/main/java/com/project/persistence/SeniorStateHistoryRepository.java:10 | a new row of one senior leaves every other senior's listing unchanged |
| Analysis.Dialogue.constructor | src/main/java/com/project/service/AnalyzeService.java:156-161 | a new dialogue has the given text, time and label and no owner yet |
| Analysis.OverallResult.constructor | src/main/java/com/project/domain/analysis/OverallResult.java:67-75 | a built result holds the given fields, is unresolved, has no resolved label and no dialogues |
| Analysis.OverallResult.ResolveWithLabel | src/main/java/com/project/domain/analysis/OverallResult.java:77-80 | the result becomes resolved with the new label; the analysed label and the dialogues stay; a resolved label is present exactly when resolved |
| Analysis.OverallResult.AddDialogue | src/main/java/com/project/domain/analysis/OverallResult.java:82-85 | the dialogue is appended at the end and points back at this result; the resolution is unchanged |
| Members.ApplyUpdate | src/main/java/com/project/domain/member/Member.java:34-39 | a null argument keeps the current role or flag, a non-null one overwrites it, and the password never changes |
| Members.ApplyUpdateLaws | src/main/java/com/project/domain/member/Member.java:34-39 | an update with two nulls changes nothing, updates are idempotent, and role and flag act independently |
| Members.Member.constructor | src/main/java/com/project/domain/member/Member.java:26-32 | a new member holds the given username, password, role and flag |
| Members.Member.Update | src/main/java/com/project/domain/member/Member.java:34-39 | the account after update is ApplyUpdate of the account before |
| Members.Member.UpdatePassword | src/main/java/com/project/domain/member/Member.java:41-43 | only the password changes |
| Members.EnabledAdmins | src/main/java/com/project/service/NotificationService.java:62-70 | the fan-out recipients never outnumber the members |
| Members.EnabledAdminsSpec | src/main/java/com/project/service/NotificationService.java:62-70 | a username is a recipient exactly when it belongs to an enabled ROLE_ADMIN member |
| Members.EnabledAdminsSteps | src/main/java/com/project/service/NotificationService.java:94-95 | each step of the loop over the role query adds the member's username exactly when that member is an enabled administrator |
| Members.EnabledAdminsOnce | src/main/java/com/project/service/NotificationService.java:94-105 | with unique usernames no administrator is notified twice by one fan-out |
| Notifications.ListForSpec | src/main/java/com/project/persistence/NotificationRepository.java:13 | the listing holds only the user's notifications, all of them, newest first |
| Notifications.MarkAllReadSpec | src/main/java/com/project/persistence/NotificationRepository.java:15-17 | afterwards the user has no unread row; other users' rows and every other column are untouched; a second call changes nothing |
| Notifications.DeleteAllForSpec | src/main/java/com/project/persistence/NotificationRepository.java:19-21 | every row of the user is gone and every other row stays; a user without rows leaves the table as it is; the user's listing is empty |
| Notifications.BulkOperationsKeepIdOrder | src/main/java/com/project/persistence/NotificationRepository.java:15-21 | the bulk update and the bulk delete keep the rows in identity order |
| Notifications.StateChangeMessageMentions | src/main/java/com/project/service/NotificationService.java:87-91 | the state-change text names the senior, the previous state ("신규" when there is none), the new state and the reason |
| Notifications.AnalysisCompleteMessageMentions | src/main/java/com/project/service/NotificationService.java:64-66 | the analysis-complete text names the doll and the analysed label |
| Delivery.FreshRowsKeepIdOrder | src/main/java/com/project/service/NotificationService.java:102 | rows saved under fresh identity values keep the table in id order, below the next id |
| Delivery.SendToSpec | src/main/java/com/project/service/NotificationService.java:108-126 | one send touches only the recipient's entry: an offline user changes nothing, a success logs one push over the current emitter, a failure drops the entry |
| Delivery.DeliverSpec | src/main/java/com/project/service/NotificationService.java:94-105 | a fan-out's pushes never add or re-point a connection, drop only recipients' entries, keep the earlier pushes, and send only the fan-out's rows, each over its own recipient's emitter |
| Delivery.DeliverReaches | src/main/java/com/project/service/NotificationService.java:104-118 | when no recipient is named twice, every recipient who had an emitter and whose send over it succeeds receives its notification over that emitter |
| Delivery.DeliverOffline | src/main/java/com/project/service/NotificationService.java:123-125 | with no recipient connected, delivery changes nothing: the rows stay in the table only |
| Delivery.SubscribedSpec | src/main/java/com/project/service/NotificationService.java:42-58 | after subscribing, the user is reachable over the new emitter exactly when the connect message went out; nobody else's entry changes |
| Delivery.DisconnectedSpec | src/main/java/com/project/service/NotificationService.java:46-47 | a completion or timeout removes the user's entry and nothing else |
| Delivery.StaleCallbackEvictsNewer | src/main/java/com/project/service/NotificationService.java:44-47 | after a re-subscription the old emitter's callback removes the newer entry, so the user is no longer reachable |
| Publishing.FanOutKeepsSound | src/main/java/com/project/service/NotificationService.java:69-80 | a fan-out keeps notification ids increasing and below the generator, and every live emitter issued |
| Publishing.FanOutOfSpec | src/main/java/com/project/service/NotificationService.java:69-80 | a fan-out appends one unread row per recipient with the given kind, message and resource id, never adds a connection, and pushes only its own rows over the recipients' emitters |
| Publishing.FanOutReaches | src/main/java/com/project/service/NotificationService.java:69-80 | with distinct recipients, each recipient connected before the fan-out whose send succeeds receives its own row over its emitter |
| Publishing.BulkOperationsKeepSound | src/main/java/com/project/persistence/NotificationRepository.java:15-21 | the bulk update and the bulk delete keep the notification table sound |
| Publishing.Recorded | src/main/java/com/project/listener/SeniorStateHistoryListener.java:22-39 | the history listener touches neither the notifications nor the connections |
| Publishing.PublishOfSpec | src/main/java/com/project/listener/SeniorStateHistoryListener.java:22-39 | publishing logs the event once and keeps the outbox sound; a working history listener adds one row that gives back the event, under the next id and stamped now; a failing one adds nothing |
| Publishing.PublishOfNotifies | src/main/java/com/project/listener/SeniorStateChangeNotificationListener.java:19-32 | a failing notification listener leaves notifications and connections alone; a working one adds one unread state-change row per enabled administrator, with the senior's id and the text built from name, both states and reason |
| Publishing.PublishOfReaches | src/main/java/com/project/service/NotificationService.java:94-105 | with a working notification listener and no administrator listed twice (as `Members.EnabledAdminsOnce` gives), each administrator connected before publishing whose send succeeds receives the state-change row live |
| ResultQueries.NewerFirstTotal | src/main/java/com/project/persistence/OverallResultRepositoryImpl.java:68 | ordering by descending timestamp compares any two results |
| ResultQueries.Top5Spec | src/main/java/com/project/persistence/OverallResultRepository.java:26 | at most five results, all of that senior, newest first, and five whenever the senior has five |
| ResultQueries.Top5KeepsNewest | src/main/java/com/project/persistence/OverallResultRepository.java:26 | no result of the senior that is left out is newer than one returned |
| ResultQueries.ExistsAfterSpec | src/main/java/com/project/persistence/OverallResultRepository.java:28 | the query holds exactly when the senior has a strictly newer result |
| ResultQueries.LatestPerSeniorSound | src/main/java/com/project/persistence/OverallResultRepository.java:30-33 | every row returned is one of its senior's newest results |
| ResultQueries.LatestPerSeniorCovers | src/main/java/com/project/persistence/OverallResultRepository.java:30-33 | every senior with a result has a row |
| ResultQueries.LatestPerSeniorKeepsTies | src/main/java/com/project/persistence/OverallResultRepository.java:30-33 | results tied at a senior's newest timestamp are all returned, so one senior can have several rows |
| ResultQueries.NewestAbove | src/main/java/com/project/persistence/OverallResultRepository.java:30-33 | every result has a newest result of its senior at or above it |
| ResultQueries.FindByIdWithDetails | src/main/java/com/project/persistence/OverallResultRepository.java:19-24 | the result with that id is found exactly when its senior and doll rows exist |
| ResultQueries.FindById | src/main/java/com/project/service/SeniorService.java:150-151 | the result found has that id; none is found only when no result has it |
| ResultQueries.RecentUrgentSpec | src/main/java/com/project/persistence/OverallResultRepositoryImpl.java:95-122 | at most ten DANGER, CRITICAL or EMERGENCY results of existing seniors; EMERGENCY before CRITICAL before DANGER, newer first within a label; every candidate left out ranks after every one returned |
| ResultQueries.InDateRangeWholeDays | src/main/java/com/project/persistence/OverallResultRepositoryImpl.java:128-136 | the date range covers whole days, both ends included |
| ResultQueries.UnconstrainedMatchesAll | src/main/java/com/project/persistence/OverallResultRepositoryImpl.java:124-160 | null or blank criteria constrain nothing: an empty condition matches every result whose senior and doll exist |
| ResultQueries.SearchSpec | src/main/java/com/project/persistence/OverallResultRepositoryImpl.java:38-92 | the page holds at most page-size rows from the offset on; the total counts every match with the same condition |
| ResultQueries.SearchContent | src/main/java/com/project/persistence/OverallResultRepositoryImpl.java:38-92 | every row on the page is a stored result of an existing senior with a registered doll that meets the criteria |
| ResultQueries.SearchNewestFirst | src/main/java/com/project/persistence/OverallResultRepositoryImpl.java:38-92 | the page is ordered newest first |
| Dashboard.ToMap | src/main/java/com/project/service/DashboardService.java:50-53 | the map is collected exactly when no key repeats, then holds each row's value under its key; otherwise the failure names a repeated key with the value stored first and the value that met it |
| Dashboard.RowsFor | src/main/java/com/project/service/DashboardService.java:37-38 | each group-by row is a state with its positive count, and no state has two rows |
| Dashboard.RowsForCovers | src/main/java/com/project/service/DashboardService.java:37-38 | every state with a non-zero count has its row |
| Dashboard.CountRows | src/main/java/com/project/service/DashboardService.java:37-38 | the group-by rows have distinct states, each with its number of seniors, and every populated state has a row |
| Dashboard.CountsSpec | src/main/java/com/project/service/DashboardService.java:36-46 | each per-state count is the number of seniors in that state (0 when none), and the four add up to the total |
| Dashboard.CountsAddUp | src/main/java/com/project/service/DashboardService.java:36-46 | every senior is counted in exactly one of the four states |
| Dashboard.ToDtoSpec | src/main/java/com/project/dto/response/DashboardSeniorDto.java:28-52 | the senior's id, name, sex, address, coordinates and last change time are copied; without a latest result every result field is null and the senior is not resolved; with one, its id, summary, plan, raw label, resolved label and flag are copied, so the resolved label is present exactly when resolved |
| Dashboard.BucketSize | src/main/java/com/project/service/DashboardService.java:67-77 | a state's list has one entry per senior in that state |
| Dashboard.BucketMembers | src/main/java/com/project/service/DashboardService.java:67-77 | every entry of a state's list names a senior in that state |
| Dashboard.BucketContains | src/main/java/com/project/service/DashboardService.java:67-77 | each senior's entry is in the list of its own state |
| Dashboard.GetDashboardData | src/main/java/com/project/service/DashboardService.java:35-87 | given the senior list and the two query results as rows, the call succeeds exactly when neither collection repeats a senior id; a repeat aborts with the IllegalStateException message naming the key and both values; otherwise the counts are the per-state counts and each state's list is its bucket |
| Dashboard.LatestTieRepeatsKey | src/main/java/com/project/service/DashboardService.java:55-60 | two different results of one senior tied at its newest timestamp give that senior two latest rows, so collecting them by senior id meets a repeated key |
| Dashboard.LatestRowsDistinctWithoutTie | src/main/java/com/project/service/DashboardService.java:55-60 | with unique result ids and no such tie, the latest rows name each senior once, so collecting them succeeds |
| Services.CareSystem.GetDashboardData | src/main/java/com/project/service/DashboardService.java:35-87 | over the senior and result tables: the call fails exactly when the latest-change rows repeat a senior or some senior has two results tied at its newest timestamp; the tie fails with the IllegalStateException naming that senior; on success the total is the size of the senior table, the counts are per state and each state's list is its bucket built from findLatestOverallResultForEachSenior |
| Dashboard.BucketByState | src/main/java/com/project/service/DashboardService.java:62-77 | the loop leaves every state with its bucket, in senior order |
| ExceptionHandling.FieldMessagesKeys | src/main/java/com/project/exception/GlobalExceptionHandler.java:52-61 | the validation body has an entry exactly for each field with an error |
| ExceptionHandling.FieldMessagesLast | src/main/java/com/project/exception/GlobalExceptionHandler.java:52-61 | a field's entry holds the message of its last error |
| ExceptionHandling.CollectFieldMessages | src/main/java/com/project/exception/GlobalExceptionHandler.java:52-61 | the forEach loop builds the same map as the specification |
| ExceptionHandling.UnsupportedMediaTypeMessageCases | src/main/java/com/project/exception/GlobalExceptionHandler.java:104-130 | each of the 415 messages is chosen exactly under its condition on the content type and the exception text |
| ExceptionHandling.UnsupportedTypeMessageIsDistinct | src/main/java/com/project/exception/GlobalExceptionHandler.java:104-130 | the formatted 415 message differs from the four fixed ones |
| ExceptionHandling.HandleSpec | src/main/java/com/project/exception/GlobalExceptionHandler.java:27-154 | 404, 409, 400, 500, 401, 405, 415 and 503 each come exactly from their exception kinds (or an analysis server answering that status); an analysis-server error keeps its own status and message; own messages are shown as they are, the fixed ones go with their kinds, and an unexpected exception's text never reaches the client |
| Security.FirstMatch | src/main/java/com/project/config/SecurityConfig.java:45-51 | the rule chosen applies and no earlier rule does; none is chosen only when no rule applies |
| Security.DecideSpec | src/main/java/com/project/config/SecurityConfig.java:45-51 | the table opens exactly the listed requests and demands the ADMIN role for every other one, including non-POST requests to /api/members |
| Security.FirstMatchDecides | src/main/java/com/project/config/SecurityConfig.java:45-51 | rules after the first applicable one never change the decision |
| Security.OriginAllowedSpec | src/main/java/com/project/config/SecurityConfig.java:67-69 | an origin may call the API exactly when, less one trailing slash and with ASCII capitals lowered, it is one of the three configured origins |
| Security.ConfiguredOriginAllowed | src/main/java/com/project/config/SecurityConfig.java:67-69 | each configured origin is allowed as written |
| Security.TrailingSlashIgnored | src/main/java/com/project/config/SecurityConfig.java:67-69 | one trailing slash on the origin does not change the answer |
| Security.CaseIgnored | src/main/java/com/project/config/SecurityConfig.java:67-69 | origins that differ only in the case of ASCII letters get the same answer |
| Security.AnswerCorsSpec | src/main/java/com/project/config/SecurityConfig.java:65-77 | a request without an Origin is not a CORS request; a cross-origin request is granted exactly when its origin, less one trailing slash and lower-cased, is a configured origin, and refused otherwise; a grant echoes the origin, allows credentials, exposes the Authorization header and allows the requested method and headers |
| Security.BearerTokenOfPrefixedToken | src/main/java/com/project/config/filter/JWTAuthorizationFilter.java:38 | "Bearer " followed by a token without that text yields the token |
| Security.AuthenticateSpec | src/main/java/com/project/config/filter/JWTAuthorizationFilter.java:33-56 | an authentication is installed exactly for a Bearer header whose token names an enabled member, with that member's role as its one authority |
| Security.RequestGranted | src/main/java/com/project/config/SecurityConfig.java:45-51 | a request gets through exactly when its route is open or its token names an enabled ROLE_ADMIN member |
| Security.RequestContext.constructor | src/main/java/com/project/config/filter/JWTAuthorizationFilter.java:31-32 | a request starts without authentication and has not been passed on |
| Security.RequestContext.DoFilterInternal | src/main/java/com/project/config/filter/JWTAuthorizationFilter.java:33-59 | the request is passed on exactly once on every path, and an authentication is installed exactly as AuthenticateSpec says |
| Upload.ScanOkNoShortRecord | src/main/java/com/project/service/AnalyzeService.java:79-82 | a successful scan saw no record with fewer than three columns |
| Upload.ScanOk | src/main/java/com/project/service/AnalyzeService.java:79-100 | a successful scan turns exactly the filled records, in order, into requests with their trimmed fields and parsed times |
| Upload.ScanChecksFirstDoll | src/main/java/com/project/service/AnalyzeService.java:89-96 | after a successful scan, the first filled record's doll exists and has a senior |
| Upload.ShortRecordFails | src/main/java/com/project/service/AnalyzeService.java:79-82 | a short record between good ones makes the whole upload fail |
| Services.StateChangeCheckSpec | src/main/java/com/project/service/SeniorService.java:144-156 | a request passes exactly when the senior exists and any analysis id names an analysis of that senior; an unknown senior, an unknown analysis and another senior's analysis each give their own error |
| Services.StateChangeOfSpec | src/main/java/com/project/service/SeniorService.java:158-172 | only that senior changes, to the new state; an event with the old and new state and the reason is logged exactly when the state differed; the outbox stays sound |
| Services.HolderOf | src/main/java/com/project/service/DollService.java:59-61 | the holder has the doll, and no other senior has it |
| Services.HeldDollsRemove | src/main/java/com/project/service/SeniorService.java:185-189 | deleting a senior frees exactly its doll |
| Services.RegistrationCheck | src/main/java/com/project/service/SeniorService.java:60-64 | registration passes exactly when the doll exists and nobody holds it; an unknown doll is not found; a held one is a conflict |
| Services.EditCheckSpec | src/main/java/com/project/service/SeniorService.java:116-126 | an edit passes exactly when the senior exists and the form names its own doll or an existing free one; an unknown senior is not found; a null doll id is an unexpected error |
| Services.Edited | src/main/java/com/project/service/SeniorService.java:128-136 | the edited senior keeps id and state, takes the form's doll and profile (the form reads back), and the new photo if one was uploaded |
| Services.RequestsSpec | src/main/java/com/project/service/AnalyzeService.java:67-111 | an empty upload fails before anything is read; otherwise the server is asked about exactly the filled records after the header, in order |
| Services.AnalysisCheck | src/main/java/com/project/service/AnalyzeService.java:128-167 | saving can go on exactly when the answer's doll exists and has a senior; an unknown doll is not found (404), a doll without a senior ends in the null dereference (500) |
| Services.AttachDialogues | src/main/java/com/project/service/AnalyzeService.java:152-164 | one fresh dialogue per answer entry is attached, in order, pointing back at the result; the resolution is unchanged |
| Services.BuildResult | src/main/java/com/project/service/AnalyzeService.java:143-164 | the built result holds the answer's doll, label, summary, evidence and plan, is unresolved, and has the answer's dialogues in order |
| Services.WithoutResultSpec | src/main/java/com/project/service/AnalyzeService.java:218 | deleting by id removes exactly the result with that id, keeps every other one and keeps ids unique |
| Services.CareSystem.constructor | src/main/java/com/project/domain/analysis/OverallResult.java:33-35 | an empty system whose identity columns start at 1 |
| Services.CareSystem.SendNotificationToUser | src/main/java/com/project/service/NotificationService.java:108-126 | the connections after one send are those SendTo specifies |
| Services.CareSystem.SaveAndSend | src/main/java/com/project/service/NotificationService.java:77-79 | the row is saved under the next id, then pushed |
| Services.CareSystem.NotifyAdmin | src/main/java/com/project/service/NotificationService.java:69-80 | one loop step adds a row and a push attempt exactly for an enabled administrator |
| Services.CareSystem.FanOut | src/main/java/com/project/service/NotificationService.java:61-106 | the loop over the role query leaves exactly FanOutOf for the enabled administrators and keeps the outbox sound |
| Services.CareSystem.RecordStateChange | src/main/java/com/project/listener/SeniorStateHistoryListener.java:22-39 | a working listener appends the row copying the event under the next id; a failing one changes nothing |
| Services.CareSystem.NotifyStateChange | src/main/java/com/project/listener/SeniorStateChangeNotificationListener.java:19-32 | a working listener performs the state-change fan-out about the event's senior; a failing one changes nothing |
| Services.CareSystem.Publish | src/main/java/com/project/service/SeniorService.java:169 | publishing leaves exactly PublishOf, whose properties PublishOfSpec and PublishOfNotifies prove |
| Services.CareSystem.AddSenior | src/main/java/com/project/service/SeniorService.java:70-77 | the senior is stored under the next id and its registration is published without a previous state |
| Services.CareSystem.CreateSenior | src/main/java/com/project/service/SeniorService.java:57-80 | a refused registration changes nothing; an accepted one stores the form's senior under the next id with the initial state and publishes "신규 등록" |
| Services.CareSystem.UpdateSenior | src/main/java/com/project/service/SeniorService.java:113-139 | the answer is the edit check; a refused edit changes nothing; an accepted one replaces the senior by its edited form and publishes nothing |
| Services.CareSystem.DeleteSenior | src/main/java/com/project/service/SeniorService.java:175-191 | an unknown senior is refused; otherwise exactly that senior is removed and its doll is freed |
| Services.CareSystem.GetSeniorStateHistory | src/main/java/com/project/service/SeniorService.java:102-111 | an unknown senior is refused; otherwise its history rows, newest first |
| Services.CareSystem.ResolveRequested | src/main/java/com/project/service/SeniorService.java:149-156 | an unknown analysis is not found, another senior's is a conflict; only the named result is resolved with the new state, and no result's dialogues change |
| Services.CareSystem.UpdateSeniorState | src/main/java/com/project/service/SeniorService.java:141-173 | the answer is the state-change check; a refused request changes nothing; an accepted one resolves the named analysis (even if the state stays) and leaves exactly StateChangeOf; no result's dialogues change |
| Services.CareSystem.ChangeState | src/main/java/com/project/service/SeniorService.java:158-172 | the seniors and the outbox become exactly StateChangeOf |
| Services.CareSystem.CollectDialogues | src/main/java/com/project/service/AnalyzeService.java:75-100 | the record loop, with its early exits, computes exactly the scan specification |
| Services.CareSystem.Analyze | src/main/java/com/project/service/AnalyzeService.java:65-117 | what reaches the server and its answer are exactly Answer of the upload |
| Services.CareSystem.AddResult | src/main/java/com/project/service/AnalyzeService.java:143-172 | the new result is built as the answer says and saved under the next id |
| Services.CareSystem.SaveAnalysisResult | src/main/java/com/project/service/AnalyzeService.java:123-189 | a refused answer changes nothing; otherwise one result is added under the next id, unresolved, with the answer's dialogues, and the senior's state change is exactly StateChangeOf with the reason naming the new result |
| Services.CareSystem.RecordAnalysis | src/main/java/com/project/service/AnalyzeService.java:166-184 | the result is stored, then the holder's state change with the reason naming the result |
| Services.CareSystem.GetAnalysisDetails | src/main/java/com/project/service/AnalyzeService.java:197-211 | a result missing with its senior and doll is not found; otherwise it is returned, editable exactly when its senior has no strictly newer result |
| Services.CareSystem.DeleteAnalysis | src/main/java/com/project/service/AnalyzeService.java:213-220 | an unknown id is refused with nothing deleted; otherwise exactly the result with that id is removed |
| Services.CareSystem.SaveAndAnnounce | src/main/java/com/project/service/AnalyzeService.java:118-119 | a refused answer changes nothing; a saved one is followed by the analysis-complete fan-out under the new result's id, whether or not the state changed |
| Services.CareSystem.AnalyzeAndSave | src/main/java/com/project/service/AnalyzeService.java:64-121 | any failure up to the answer changes nothing; a refused answer gives the doll check's error and changes nothing; an accepted one adds one saved result under the next id, leaves the senior states of StateChangeOf and then the ANALYSIS_COMPLETE fan-out of FanOutOf |
| Services.CareSystem.Subscribe | src/main/java/com/project/service/NotificationService.java:42-58 | a new emitter is issued and the connections become exactly Subscribed |
| Services.CareSystem.EmitterDone | src/main/java/com/project/service/NotificationService.java:46-47 | the connections become exactly Disconnected |
| Services.CareSystem.GetNotificationsForUser | src/main/java/com/project/service/NotificationService.java:128-134 | the answer is the user's listing |
| Services.CareSystem.MarkAsRead | src/main/java/com/project/service/NotificationService.java:136-141 | an unknown id is not found; otherwise exactly the row with that id becomes read and nothing else changes |
| Services.CareSystem.MarkAllAsRead | src/main/java/com/project/persistence/NotificationRepository.java:15-17 | the table becomes exactly MarkAllRead of the old table, and the system stays valid |
| Services.CareSystem.DeleteAllNotifications | src/main/java/com/project/persistence/NotificationRepository.java:19-21 | the table becomes exactly DeleteAllFor of the old table, and the system stays valid |
| Services.CareSystem.RegisterMember | src/main/java/com/project/service/MemberService.java:27-43 | a taken username is refused with nothing saved; otherwise one new enabled administrator with the encoded password is appended |
| Services.CareSystem.FindMemberByUsername | src/main/java/com/project/service/MemberService.java:54-60 | fails exactly when no member has the username; otherwise the one member that has it |
| Services.CareSystem.UpdateMember | src/main/java/com/project/service/MemberService.java:62-70 | an unknown username is refused; the named member takes the update; no other member changes |
| Services.CareSystem.DeleteMember | src/main/java/com/project/service/MemberService.java:72-79 | an unknown username is refused; otherwise exactly that member is removed |
| Services.CareSystem.CreateDoll | src/main/java/com/project/service/DollService.java:24-35 | a taken id is a conflict; otherwise the doll is added |
| Services.CareSystem.GetDollById | src/main/java/com/project/service/DollService.java:37-43 | an unknown doll is not found; otherwise the holder's id exactly when some senior holds it |
| Services.CareSystem.DeleteDoll | src/main/java/com/project/service/DollService.java:53-65 | an unknown doll is not found and a held one is a conflict naming its holder, both keeping the doll; otherwise the doll is removed |

## Left out

- SeniorRequests.Violations: the model lists violations in field declaration order, @NotBlank before @Pattern. Bean Validation fixes no order, and Hibernate Validator collects violations in a hash set. So for a blank phone the program's 400 body may show either of the field's two messages, while the model (through `ExceptionHandling.FieldMessagesLast`) shows the pattern message.
- Security.OriginAllowed: equalsIgnoreCase folds case only for ASCII letters here. Java also folds some other letters to ASCII ones (the long s, U+017F, matches "s", as in "localhost"). The configured origins are ASCII, but an origin spelled with such a letter would be allowed by the program and refused by the model.
- Dashboard.DuplicateKeyError: how a timestamp and a result entity print in the message is an input of `GetDashboardData` (`showTime`, `showResult`).
- Dashboard.GetDashboardData: the senior list, the latest-change rows and the latest-result rows are inputs. `Services.CareSystem.GetDashboardData` supplies the senior table (in an input order) and `ResultQueries.LatestPerSenior` of the result table for the latter. The latest-change rows stay an input: the service calls findLatestStateChangeTimestampForEachSenior, which SeniorStateHistoryRepository does not declare, so nothing fixes what it returns.
- Security.AnswerCorsSpec: the CORS processor is Spring's and not part of this model; `AnswerCors` states only what it answers under this configuration. Vary headers, the preflight max-age and the difference between preflight and actual requests are left out.
- Confidence scores: the source maps and stores the overall and per-dialogue confidence scores of the analysis answer (AnalyzeService.java, lines 131-132, 153-154 and 222-231). The model's answers and results carry no scores.
- Photo files: saving, deleting and naming them is file I/O. The saved photo's name is an input of `CreateSenior` and `UpdateSenior`.
- CSV reading: tokenising and the CSV and I/O exceptions are left out. Records arrive split into columns, and parsing a timestamp is an input function.
- The analysis server: the HTTP call is the input `analyze`. Its result, or the error it raises, is the answer.
- Server-sent events: transport, serialisation, timeouts and the connect message's content are left out. Whether a send succeeds is an input. The connect message is not logged as a push.
- Transactions: rollback of a transaction is not modelled. Neither is a fan-out that fails halfway: each listener either runs completely or leaves no trace. The listeners join the caller's transaction, so a repository call failing inside one marks the whole transaction rollback-only even when the listener catches the exception. The program can then answer 500 with nothing saved, where the model answers Ok with the state changed and only that listener's part missing.
- Listener order: the source does not fix the order of the two listeners. The model runs the history listener first. The two touch disjoint tables, so no stated property depends on the order.
- Clock-dependent values are not part of this model: the age shown on the dashboard, the @Past check on the birth date, and the age-group search criterion. Timestamps and dates are integers.
- Latitude and longitude are carried as reals and never compared.
- Media types: subtype suffixes and parameters of media types are ignored.
- JWT: decoding and verifying the token is the input function `claim`.
- Passwords: encoding is the input function `encode`.
- Deletes: foreign-key cascades when a senior, member, doll or analysis is deleted are not modelled.
- Senior, Doll, Notification, DollResponseDto and MemberDto are not part of this model.
  - A new senior is assumed to start in state POSITIVE (`Seniors.InitialState`).
  - Notifications are created unread.
- markAllAsRead and deleteAllNotifications are called by NotificationController.java (lines 44 and 51) but are absent from NotificationService.java. `MarkAllAsRead` and `DeleteAllNotifications` apply the repository's bulk queries directly.
- Services.CareSystem.UpdateSenior: the controller (SeniorController.java, line 76) does not validate the form of an update. The method takes any form, and a null doll id fails as an unexpected error, as the repository lookup would.
- Services.CareSystem.Valid: the rule "a resolved label is present exactly when the result is resolved" is not part of the system invariant. Every result the services create or resolve keeps it by `Saved` and `ResolveWithLabel`.
- Services.CareSystem.SaveAnalysisResult: the source writes the senior's state even when it is unchanged. The model leaves the senior as it is in that case, which is the same value.
- Publishing.PublishOfNotifies states the message as the formatted text. What the text mentions is stated separately by `Notifications.StateChangeMessageMentions`.
- searchSeniors, getSeniorDetails, findAllMembers and getAllDolls are plain repository pass-throughs. The queries they use are modelled where they touch results (`ResultQueries.Top5Spec` for the detail view); the senior search itself is not.
