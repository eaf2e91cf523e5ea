/** The services as one stateful object: the senior, doll, analysis-result,
    member, notification and state-history tables, the username-to-emitter
    map of live connections and the log of published state-change events,
    with one method per service operation. Publishing an event calls the two
    listeners directly, history listener first. */
module Services {
  import opened Domain
  import opened Text
  import opened Seniors
  import opened Analysis
  import opened Members
  import opened Notifications
  import opened Delivery
  import SeniorRequests
  import StateHistory
  import ResultQueries
  import Dashboard
  import Upload
  import opened Publishing
  import opened Ordering

  /** What the environment decides during one call: the clock, whether a send
      over a given emitter succeeds, and whether either listener fails. */
  datatype Env = Env(now: int, sendOk: (nat, int) -> bool, historyFails: bool, notifyFails: bool)

  /** The analysis server's answer. */
  datatype OverallResponse = OverallResponse(
    dollId: string,
    riskLabel: Risk,
    summary: string,
    evidence: seq<string>,
    treatmentPlan: string)

  datatype DialogueResponse = DialogueResponse(text: string, utteredAt: int, riskLabel: Risk)

  datatype AnalysisResponse = AnalysisResponse(overallResult: OverallResponse, dialogueResult: seq<DialogueResponse>)

  // ---------------------------------------------------------------- messages

  function SeniorMissingMessage(id: int): string {
    "시니어 " + LongToString(id) + "는 없음."
  }

  /** createSenior's message for an unknown doll. */
  function DollMissingMessage(dollId: string): string {
    "인형 " + dollId + " 없음."
  }

  /** updateSenior's message for an unknown doll (without the space). */
  function NewDollMissingMessage(dollId: string): string {
    "인형 " + dollId + "없음."
  }

  const DollInUseMessage := "해당 인형은 이미 사용 중."
  const RegistrationReason := "신규 등록"

  /** What a null doll id in an update ends in: the repository rejects a null id. */
  const NullDollIdMessage := "The given id must not be null"

  /** What an analysis for a doll without a senior ends in: a null dereference. */
  const NoSeniorDereference := "NullPointerException"

  function ResultMissingMessage(id: int): string {
    "분석 ID " + LongToString(id) + "를 찾을 수 없습니다."
  }

  function ForeignResultMessage(seniorId: int): string {
    "해당 분석 결과는 senior ID " + LongToString(seniorId) + "에 속하지 않습니다."
  }

  /** The reason of an event raised by a saved analysis. */
  function AnalysisReason(resultId: int): string {
    "분석 ID: " + LongToString(resultId) + "의 결과로 상태 변경"
  }

  function AnalysisMissingMessage(id: int): string {
    "ID: " + LongToString(id) + " 분석을 찾을 수 없습니다."
  }

  function NotificationMissingMessage(id: int): string {
    "ID " + LongToString(id) + "인 알림 없음"
  }

  const UsernameTakenMessage := "이미 존재하는 사용자 이름입니다."

  function MemberMissingMessage(username: string): string {
    "사용자를 찾을 수 없습니다: " + username
  }

  const DollIdTakenMessage := "이미 존재하는 인형 Id입니다."

  function DollNotFoundMessage(id: string): string {
    "인형을 찾을 수 없습니다: " + id
  }

  function DollAssignedMessage(seniorId: int): string {
    "해당 인형은 ID " + LongToString(seniorId) + "번 시니어에게 할당되어 있어 삭제할 수 없습니다."
  }

  // ---------------------------------------------------------------- state changes

  /** The checks of updateSeniorState, in order: the senior must exist, then
      a given analysis id must name an existing analysis of that senior. */
  function StateChangeCheck(seniors: map<int, Senior>, results: seq<OverallResult>, seniorId: int,
                            resultId: Option<int>): Result<()>
  {
    if seniorId !in seniors then Fail(EntityNotFound(SeniorMissingMessage(seniorId)))
    else if resultId.None? then Ok(())
    else
      var found := ResultQueries.FindById(results, resultId.value);
      if found.None? then Fail(EntityNotFound(ResultMissingMessage(resultId.value)))
      else if found.value.seniorId != seniorId then Fail(IllegalArgument(ForeignResultMessage(seniorId)))
      else Ok(())
  }

  /** A request passes exactly when the senior exists and any analysis id it
      gives names an analysis of that senior; an unknown senior is reported
      first, an unknown analysis as not found and another senior's analysis
      as a conflict. */
  lemma StateChangeCheckSpec(seniors: map<int, Senior>, results: seq<OverallResult>, seniorId: int,
                             resultId: Option<int>)
    requires forall i, j :: 0 <= i < j < |results| ==> results[i].id != results[j].id
    ensures StateChangeCheck(seniors, results, seniorId, resultId).Ok? <==>
              seniorId in seniors
              && (resultId.Some? ==> exists o :: o in results && o.id == resultId.value && o.seniorId == seniorId)
    ensures seniorId !in seniors ==>
              StateChangeCheck(seniors, results, seniorId, resultId) == Fail(EntityNotFound(SeniorMissingMessage(seniorId)))
    ensures seniorId in seniors && resultId.Some? && (forall o :: o in results ==> o.id != resultId.value) ==>
              StateChangeCheck(seniors, results, seniorId, resultId) == Fail(EntityNotFound(ResultMissingMessage(resultId.value)))
    ensures seniorId in seniors && resultId.Some?
            && (exists o :: o in results && o.id == resultId.value && o.seniorId != seniorId) ==>
              StateChangeCheck(seniors, results, seniorId, resultId) == Fail(IllegalArgument(ForeignResultMessage(seniorId)))
  {
    if seniorId in seniors && resultId.Some? {
      var found := ResultQueries.FindById(results, resultId.value);
      if found.Some? {
        forall o | o in results && o.id == resultId.value ensures o == found.value {
          var i :| 0 <= i < |results| && results[i] == o;
          var j :| 0 <= j < |results| && results[j] == found.value;
        }
      }
    }
  }

  /** What a state change that passed its checks leaves behind: a state
      different from the stored one is stored and published with the previous
      state; the same state changes nothing. */
  function StateChangeOf(seniors: map<int, Senior>, o: Outbox, seniorId: int, newState: Risk, reason: string,
                         admins: seq<string>, env: Env): (map<int, Senior>, Outbox)
    requires seniorId in seniors
  {
    var s := seniors[seniorId];
    if s.state == newState then (seniors, o)
    else (seniors[seniorId := s.(state := newState)],
          PublishOf(o, SeniorStateChangedEvent(seniorId, Some(s.state), newState, reason), s.profile.name, admins,
                    env.now, env.sendOk, env.historyFails, env.notifyFails))
  }

  /** After a state change the senior has the new state and nothing else of
      any senior differs; an event is logged exactly when the state differed,
      and it records the old and the new state and the reason; the outbox stays
      sound. */
  lemma StateChangeOfSpec(seniors: map<int, Senior>, o: Outbox, seniorId: int, newState: Risk, reason: string,
                          admins: seq<string>, env: Env)
    requires seniorId in seniors && Sound(o)
    ensures var (after, o') := StateChangeOf(seniors, o, seniorId, newState, reason, admins, env);
            && after.Keys == seniors.Keys
            && after[seniorId] == seniors[seniorId].(state := newState)
            && (forall id :: id in seniors && id != seniorId ==> after[id] == seniors[id])
            && Sound(o')
            && o'.events == o.events +
                 (if seniors[seniorId].state == newState then []
                  else [SeniorStateChangedEvent(seniorId, Some(seniors[seniorId].state), newState, reason)])
  {
    var s := seniors[seniorId];
    if s.state != newState {
      PublishOfSpec(o, SeniorStateChangedEvent(seniorId, Some(s.state), newState, reason), s.profile.name, admins,
                    env.now, env.sendOk, env.historyFails, env.notifyFails);
    }
  }

  // ---------------------------------------------------------------- registration and edits

  /** The dolls some senior holds (findByIdWithSenior finds a senior for them). */
  function HeldDolls(seniors: map<int, Senior>): (r: set<string>)
    ensures forall d :: d in r <==> exists id :: id in seniors && seniors[id].dollId == d
  {
    set id | id in seniors :: seniors[id].dollId
  }

  /** No doll is held by two seniors. */
  predicate DollsUnshared(seniors: map<int, Senior>) {
    forall a, b :: a in seniors && b in seniors && seniors[a].dollId == seniors[b].dollId ==> a == b
  }

  /** The senior holding a held doll (the doll's senior). */
  function HolderOf(seniors: map<int, Senior>, dollId: string): (id: int)
    requires DollsUnshared(seniors) && dollId in HeldDolls(seniors)
    ensures id in seniors && seniors[id].dollId == dollId
    ensures forall other :: other in seniors && seniors[other].dollId == dollId ==> other == id
  {
    var id :| id in seniors && seniors[id].dollId == dollId; id
  }

  /** When no doll has two seniors, removing a senior frees exactly its doll. */
  lemma HeldDollsRemove(seniors: map<int, Senior>, id: int)
    requires id in seniors
    requires DollsUnshared(seniors)
    ensures HeldDolls(seniors - {id}) == HeldDolls(seniors) - {seniors[id].dollId}
  {
    forall x | x in HeldDolls(seniors) - {seniors[id].dollId} ensures x in HeldDolls(seniors - {id}) {
      var k :| k in seniors && seniors[k].dollId == x;
      assert k in seniors - {id};
    }
  }

  /** The checks of createSenior: the doll must exist and be free. */
  function RegistrationCheck(seniors: map<int, Senior>, dolls: set<string>, dollId: string): (r: Result<()>)
    ensures r.Ok? <==> dollId in dolls && forall id :: id in seniors ==> seniors[id].dollId != dollId
    ensures dollId !in dolls ==> r == Fail(EntityNotFound(DollMissingMessage(dollId)))
    ensures dollId in dolls && !r.Ok? ==> r == Fail(IllegalArgument(DollInUseMessage))
  {
    if dollId !in dolls then Fail(EntityNotFound(DollMissingMessage(dollId)))
    else if dollId in HeldDolls(seniors) then Fail(IllegalArgument(DollInUseMessage))
    else Ok(())
  }

  /** The checks of updateSenior: the senior must exist; a doll id different
      from the senior's own must be non-null, exist and be free. A null doll id
      reaches the repository, which rejects it with an unexpected exception. */
  function EditCheck(seniors: map<int, Senior>, dolls: set<string>, id: int, dollId: Option<string>): Result<()>
  {
    if id !in seniors then Fail(EntityNotFound(SeniorMissingMessage(id)))
    else if dollId == Some(seniors[id].dollId) then Ok(())
    else if dollId.None? then Fail(Unhandled(NullDollIdMessage))
    else if dollId.value !in dolls then Fail(EntityNotFound(NewDollMissingMessage(dollId.value)))
    else if dollId.value in HeldDolls(seniors) then Fail(IllegalArgument(DollInUseMessage))
    else Ok(())
  }

  /** An edit passes exactly when the senior exists and the form names its own
      doll or an existing doll nobody holds; a passing edit names some doll. */
  lemma EditCheckSpec(seniors: map<int, Senior>, dolls: set<string>, id: int, dollId: Option<string>)
    ensures EditCheck(seniors, dolls, id, dollId).Ok? <==>
              id in seniors && dollId.Some?
              && (dollId.value == seniors[id].dollId
                  || (dollId.value in dolls && forall other :: other in seniors ==> seniors[other].dollId != dollId.value))
    ensures id !in seniors ==> EditCheck(seniors, dolls, id, dollId) == Fail(EntityNotFound(SeniorMissingMessage(id)))
    ensures id in seniors && dollId.None? ==> EditCheck(seniors, dolls, id, dollId) == Fail(Unhandled(NullDollIdMessage))
  {
  }

  /** The senior after an edit: the form's profile and doll, the newly
      uploaded photo if there is one (else the old photo), and the same id and
      state. */
  function Edited(s: Senior, d: SeniorRequests.SeniorRequest, upload: Option<string>): (r: Senior)
    requires d.dollId.Some?
    ensures r.id == s.id && r.state == s.state && r.dollId == d.dollId.value
    ensures RequestOf(r.profile, Some(r.dollId)) == d
    ensures upload.Some? ==> r.photo == upload
    ensures upload.None? ==> r.photo == s.photo
  {
    ProfileOfRoundTrip(d);
    Senior(s.id, ProfileOf(d), if upload.Some? then upload else s.photo, s.state, d.dollId.value)
  }

  // ---------------------------------------------------------------- analyses

  /** A scan outcome with `done` put in front of its requests. */
  function Prepend(done: seq<Upload.DialogueRequest>, rest: Result<seq<Upload.DialogueRequest>>)
    : Result<seq<Upload.DialogueRequest>>
  {
    match rest
    case Fail(e) => Fail(e)
    case Ok(more) => Ok(done + more)
  }

  /** What reaches the analysis server from an upload: an empty file is
      refused; otherwise the header record is skipped and the rest scanned. */
  function Requests(file: seq<Upload.Row>, dolls: set<string>, withSenior: set<string>, parse: string -> Option<int>)
    : Result<seq<Upload.DialogueRequest>>
  {
    if file == [] then Fail(InvalidFile(Upload.EmptyFileMessage))
    else Upload.Scan(file[1..], true, dolls, withSenior, parse)
  }

  /** The analysis server's answer to an upload, or the first failure on the way. */
  function Answer(file: seq<Upload.Row>, dolls: set<string>, withSenior: set<string>, parse: string -> Option<int>,
                  analyze: seq<Upload.DialogueRequest> -> Result<AnalysisResponse>): Result<AnalysisResponse>
  {
    match Requests(file, dolls, withSenior, parse)
    case Fail(e) => Fail(e)
    case Ok(requests) => analyze(requests)
  }

  /** An empty upload fails before anything is read or sent; otherwise the
      server is asked exactly about the filled records after the header, in
      their order. */
  lemma RequestsSpec(file: seq<Upload.Row>, dolls: set<string>, withSenior: set<string>, parse: string -> Option<int>)
    ensures file == [] ==> Requests(file, dolls, withSenior, parse) == Fail(InvalidFile(Upload.EmptyFileMessage))
    ensures Requests(file, dolls, withSenior, parse).Ok? ==>
              var kept := Filter(file[1..], Upload.Filled);
              var sent := Requests(file, dolls, withSenior, parse).value;
              |sent| == |kept| && forall k :: 0 <= k < |kept| ==> Upload.Becomes(kept[k], sent[k], parse)
  {
    if file != [] && Requests(file, dolls, withSenior, parse).Ok? {
      Upload.ScanOk(file[1..], true, dolls, withSenior, parse);
    }
  }

  /** The checks of saveAnalysisResult on the answer's doll: it must exist; a
      doll without a senior passes the lookup and then fails on the missing
      senior. */
  function AnalysisCheck(seniors: map<int, Senior>, dolls: set<string>, dollId: string): (r: Result<()>)
    ensures r.Ok? <==> dollId in dolls && dollId in HeldDolls(seniors)
    ensures dollId !in dolls ==> r == Fail(EntityNotFound(Upload.DollMissingMessage(dollId)))
    ensures dollId in dolls && dollId !in HeldDolls(seniors) ==> r == Fail(Unhandled(NoSeniorDereference))
  {
    if dollId !in dolls then Fail(EntityNotFound(Upload.DollMissingMessage(dollId)))
    else if dollId !in HeldDolls(seniors) then Fail(Unhandled(NoSeniorDereference))
    else Ok(())
  }

  /** A stored dialogue's text, time and label, in the answer's terms. */
  function DialogueOf(d: Dialogue): DialogueResponse {
    DialogueResponse(d.text, d.utteredAt, d.riskLabel)
  }

  function DialoguesOf(ds: seq<Dialogue>): (r: seq<DialogueResponse>)
    ensures |r| == |ds| && forall k :: 0 <= k < |ds| ==> r[k] == DialogueOf(ds[k])
  {
    seq(|ds|, k requires 0 <= k < |ds| => DialogueOf(ds[k]))
  }

  /** The answer's overall part as a stored result holds it. */
  function OverallOf(o: OverallResult): OverallResponse {
    OverallResponse(o.dollId, o.riskLabel, o.summary, o.evidence, o.treatmentPlan)
  }

  /** What a stored result holds, as a value. */
  datatype StoredResult = StoredResult(id: int, seniorId: int, timestamp: int, overall: OverallResponse,
                                       resolution: Resolution, dialogues: seq<DialogueResponse>)

  function StoredOf(o: OverallResult): StoredResult
    reads o
  {
    StoredResult(o.id, o.seniorId, o.timestamp, OverallOf(o), o.ResolutionState(), DialoguesOf(o.dialogues))
  }

  /** `o` is the result saved for `resp`: the given id and senior, stamped
      `now`, the answer's doll, label, summary, evidence and plan, unresolved,
      with the answer's dialogues in the answer's order, each pointing back at
      `o`. */
  ghost predicate Saved(o: OverallResult, id: int, seniorId: int, resp: AnalysisResponse, now: int)
    reads o, o.dialogues
  {
    && StoredOf(o) == StoredResult(id, seniorId, now, resp.overallResult, Unresolved, resp.dialogueResult)
    && o.Valid() && forall k :: 0 <= k < |o.dialogues| ==> o.dialogues[k].overallResult == o
  }

  /** The dialogue loop of saveAnalysisResult: one new dialogue per response
      entry, attached in order. */
  method AttachDialogues(o: OverallResult, entries: seq<DialogueResponse>)
    requires o.Valid()
    modifies o
    ensures o.Valid() && o.ResolutionState() == old(o.ResolutionState())
    ensures |o.dialogues| == |old(o.dialogues)| + |entries| && o.dialogues[..|old(o.dialogues)|] == old(o.dialogues)
    ensures forall j :: |old(o.dialogues)| <= j < |o.dialogues| ==>
              fresh(o.dialogues[j]) && DialogueOf(o.dialogues[j]) == entries[j - |old(o.dialogues)|]
              && o.dialogues[j].overallResult == o
  {
    ghost var n0 := |o.dialogues|;
    for i := 0 to |entries|
      invariant o.Valid() && o.ResolutionState() == old(o.ResolutionState())
      invariant |o.dialogues| == n0 + i && o.dialogues[..n0] == old(o.dialogues)
      invariant forall j :: n0 <= j < |o.dialogues| ==>
                  fresh(o.dialogues[j]) && DialogueOf(o.dialogues[j]) == entries[j - n0] && o.dialogues[j].overallResult == o
    {
      var d := new Dialogue(entries[i].text, entries[i].utteredAt, entries[i].riskLabel);
      o.AddDialogue(d);
    }
  }

  /** The builder of saveAnalysisResult followed by its dialogue loop. */
  method BuildResult(id: int, seniorId: int, resp: AnalysisResponse, now: int) returns (o: OverallResult)
    ensures fresh(o) && Saved(o, id, seniorId, resp, now)
  {
    var overall := resp.overallResult;
    o := new OverallResult(id, seniorId, overall.dollId, now, overall.riskLabel, overall.summary,
                           overall.evidence, overall.treatmentPlan);
    AttachDialogues(o, resp.dialogueResult);
    assert DialoguesOf(o.dialogues) == resp.dialogueResult;
  }

  /** The result list without the result of that id (deleteById). */
  function WithoutResult(results: seq<OverallResult>, id: int): seq<OverallResult> {
    match ResultQueries.PositionOf(results, id)
    case None => results
    case Some(k) => results[..k] + results[k + 1..]
  }

  /** With unique ids, deleting by id removes exactly that result, keeps every
      other one and keeps the ids unique. */
  lemma WithoutResultSpec(results: seq<OverallResult>, id: int)
    requires forall i, j :: 0 <= i < j < |results| ==> results[i].id != results[j].id
    ensures forall o :: o in WithoutResult(results, id) <==> o in results && o.id != id
    ensures |WithoutResult(results, id)| == |results| - (if exists o :: o in results && o.id == id then 1 else 0)
    ensures var w := WithoutResult(results, id); forall i, j :: 0 <= i < j < |w| ==> w[i].id != w[j].id
  {
    var w := WithoutResult(results, id);
    match ResultQueries.PositionOf(results, id)
    case None =>
    case Some(k) =>
      assert forall i :: 0 <= i < |w| ==> w[i] == results[if i < k then i else i + 1];
      forall o | o in results && o.id != id ensures o in w {
        var i :| 0 <= i < |results| && results[i] == o;
        assert w[if i < k then i else i - 1] == o;
      }
  }

  /** `all` lists the senior table: every senior once, in some order. */
  predicate ListsTable(all: seq<Senior>, seniors: map<int, Senior>) {
    && |all| == |seniors|
    && (forall k :: 0 <= k < |all| ==> all[k].id in seniors && seniors[all[k].id] == all[k])
    && (forall k, l :: 0 <= k < l < |all| ==> all[k].id != all[l].id)
  }

  /** What getAnalysisDetails answers: the result and whether it may still be edited. */
  datatype AnalysisDetail = AnalysisDetail(result: OverallResult, isEditable: bool)

  // ---------------------------------------------------------------- the system

  class CareSystem {
    var seniors: map<int, Senior>
    var dolls: set<string>
    var results: seq<OverallResult>
    var members: seq<Member>
    var nextSeniorId: int
    var nextResultId: int
    var events: seq<Event>
    var history: seq<StateHistory.SeniorStateHistory>
    var nextHistoryId: int
    var notifications: seq<Notification>
    var nextNotificationId: int
    var live: Live
    var nextEmitter: nat

    /** The table constraints the services rely on: keys and ids agree and
        are below their generators, every senior's doll exists and no doll
        has two seniors, and result ids and usernames are unique. */
    ghost predicate RecordsValid()
      reads this`seniors, this`dolls, this`results, this`members, this`nextSeniorId, this`nextResultId
    {
      && (forall id :: id in seniors ==> seniors[id].id == id && id < nextSeniorId)
      && (forall id :: id in seniors ==> seniors[id].dollId in dolls)
      && DollsUnshared(seniors)
      && (forall i, j :: 0 <= i < j < |results| ==> results[i].id != results[j].id)
      && (forall i :: 0 <= i < |results| ==> results[i].id < nextResultId)
      && (forall i, j :: 0 <= i < j < |members| ==> members[i].username != members[j].username)
    }

    /** The event log, the history and notification tables and the live
        connections, as one value. */
    function OutboxState(): Outbox
      reads this`events, this`history, this`nextHistoryId, this`notifications, this`nextNotificationId,
            this`live, this`nextEmitter
    {
      Outbox(events, history, nextHistoryId, notifications, nextNotificationId, live, nextEmitter)
    }

    ghost predicate Valid()
      reads this
    {
      RecordsValid() && Sound(OutboxState())
    }

    /** An empty system; identity columns start at 1. */
    constructor ()
      ensures Valid()
      ensures seniors == map[] && dolls == {} && results == [] && members == []
      ensures OutboxState() == Outbox([], [], 1, [], 1, Live(map[], []), 0)
    {
      seniors := map[];
      dolls := {};
      results := [];
      members := [];
      nextSeniorId := 1;
      nextResultId := 1;
      events := [];
      history := [];
      nextHistoryId := 1;
      notifications := [];
      nextNotificationId := 1;
      live := Live(map[], []);
      nextEmitter := 0;
    }

    /** The enabled administrators, in member order. */
    function Admins(): seq<string>
      reads this`members, members
    {
      EnabledAdmins(members)
    }

    // ---------------------------------------------------------------- notifications

    /** sendNotificationToUser. */
    method SendNotificationToUser(n: Notification, sendOk: (nat, int) -> bool)
      modifies this`live
      ensures live == SendTo(old(live), n, sendOk)
    {
      var username := n.recipient;
      if username in live.emitters {
        var emitter := live.emitters[username];
        if sendOk(emitter, n.id) {
          live := live.(pushes := live.pushes + [Push(emitter, n)]);
        } else {
          live := live.(emitters := live.emitters - {username});
        }
      }
    }

    /** One step of a fan-out: the row is saved, then pushed. */
    method SaveAndSend(n: Notification, sendOk: (nat, int) -> bool)
      modifies this`notifications, this`nextNotificationId, this`live
      ensures notifications == old(notifications) + [n] && nextNotificationId == old(nextNotificationId) + 1
      ensures live == SendTo(old(live), n, sendOk)
    {
      notifications := notifications + [n];
      nextNotificationId := nextNotificationId + 1;
      SendNotificationToUser(n, sendOk);
    }

    /** The body of the fan-out loop for one member of the role query: an
        enabled administrator gets a row under the next id, pushed at once;
        anybody else is skipped. The ghost parameters carry what the loop has
        done so far. */
    method NotifyAdmin(admin: Member, kind: NotificationType, message: string, resourceId: string, now: int,
                       sendOk: (nat, int) -> bool, ghost saved: seq<Notification>, ghost live0: Live,
                       ghost first: int, ghost admins: seq<string>, ghost rows: seq<Notification>)
      returns (ghost admins': seq<string>, ghost rows': seq<Notification>)
      requires rows == NewNotifications(admins, first, kind, message, resourceId, now)
      requires nextNotificationId == first + |admins|
      requires notifications == saved + rows && live == Deliver(live0, rows, sendOk)
      modifies this`notifications, this`nextNotificationId, this`live
      ensures admins' == admins + (if admin.role == ROLE_ADMIN && admin.enabled then [admin.username] else [])
      ensures rows' == NewNotifications(admins', first, kind, message, resourceId, now)
      ensures nextNotificationId == first + |admins'|
      ensures notifications == saved + rows' && live == Deliver(live0, rows', sendOk)
    {
      admins', rows' := admins, rows;
      if admin.role == ROLE_ADMIN && admin.enabled {
        var n := Notification(nextNotificationId, admin.username, kind, message, resourceId, now, false);
        NewNotificationsSnoc(admins, admin.username, first, kind, message, resourceId, now);
        assert (rows + [n])[..|rows + [n]| - 1] == rows;
        assert (saved + rows) + [n] == saved + (rows + [n]);
        SaveAndSend(n, sendOk);
        admins', rows' := admins + [admin.username], rows + [n];
      }
    }

    /** The loop shared by both fan-outs: for every ROLE_ADMIN member that is
        enabled, save one notification, then try to push it. */
    method FanOut(kind: NotificationType, message: string, resourceId: string, now: int, sendOk: (nat, int) -> bool)
      requires Sound(OutboxState())
      modifies this`notifications, this`nextNotificationId, this`live
      ensures Sound(OutboxState())
      ensures OutboxState() == FanOutOf(old(OutboxState()), old(Admins()), kind, message, resourceId, now, sendOk)
    {
      ghost var saved := notifications;
      ghost var live0 := live;
      ghost var first := nextNotificationId;
      ghost var admins: seq<string> := [];
      ghost var rows: seq<Notification> := [];
      EnabledAdminsSteps(members);
      for i := 0 to |members|
        invariant admins == old(EnabledAdmins(members[..i]))
        invariant rows == NewNotifications(admins, first, kind, message, resourceId, now)
        invariant nextNotificationId == first + |admins|
        invariant notifications == saved + rows && live == Deliver(live0, rows, sendOk)
      {
        admins, rows := NotifyAdmin(members[i], kind, message, resourceId, now, sendOk, saved, live0, first, admins, rows);
      }
      assert old(members[..|members|]) == old(members);
      ghost var o0 := old(OutboxState());
      assert OutboxState() == FanOutOf(o0, admins, kind, message, resourceId, now, sendOk);
      FanOutKeepsSound(o0, admins, kind, message, resourceId, now, sendOk);
    }

    // ---------------------------------------------------------------- listeners

    /** The history listener: one row copying the event, stamped now; a
        failure is logged and swallowed. */
    method RecordStateChange(e: Event, env: Env)
      modifies this`history, this`nextHistoryId
      ensures history == old(history) + (if env.historyFails then [] else [StateHistory.FromEvent(old(nextHistoryId), e, env.now)])
      ensures nextHistoryId == old(nextHistoryId) + (if env.historyFails then 0 else 1)
    {
      if !env.historyFails {
        history := history + [StateHistory.FromEvent(nextHistoryId, e, env.now)];
        nextHistoryId := nextHistoryId + 1;
      }
    }

    /** The notification listener: the state-change fan-out about the event's
        senior; a failure is logged and swallowed. */
    method NotifyStateChange(e: Event, env: Env)
      requires Valid() && e.seniorId in seniors
      modifies this`notifications, this`nextNotificationId, this`live
      ensures Valid()
      ensures OutboxState() ==
                if env.notifyFails then old(OutboxState())
                else FanOutOf(old(OutboxState()), old(Admins()), SENIOR_STATE_CHANGED,
                              StateChangeMessage(seniors[e.seniorId].profile.name, e.previousState, e.newState, e.reason),
                              LongToString(e.seniorId), env.now, env.sendOk)
    {
      if !env.notifyFails {
        var name := seniors[e.seniorId].profile.name;
        FanOut(SENIOR_STATE_CHANGED, StateChangeMessage(name, e.previousState, e.newState, e.reason),
               LongToString(e.seniorId), env.now, env.sendOk);
      }
    }

    /** Publishing a state-change event: the event is logged and both
        listeners run on it. They touch disjoint tables, so the order in which
        they run does not matter. */
    method Publish(e: Event, env: Env)
      requires Valid() && e.seniorId in seniors
      modifies this`events, this`history, this`nextHistoryId, this`notifications, this`nextNotificationId, this`live
      ensures Valid()
      ensures OutboxState() == PublishOf(old(OutboxState()), e, seniors[e.seniorId].profile.name, old(Admins()),
                                         env.now, env.sendOk, env.historyFails, env.notifyFails)
    {
      PublishOfSpec(OutboxState(), e, seniors[e.seniorId].profile.name, Admins(),
                    env.now, env.sendOk, env.historyFails, env.notifyFails);
      events := events + [e];
      RecordStateChange(e, env);
      assert OutboxState() == Recorded(old(OutboxState()), e, env.now, env.historyFails);
      NotifyStateChange(e, env);
    }
      // ---------------------------------------------------------------- seniors

    /** seniorRepository.save of a new senior under the next id, followed by
        the registration event. */
    method AddSenior(s: Senior, env: Env)
      requires Valid() && s.id == nextSeniorId && s.dollId in dolls && s.dollId !in HeldDolls(seniors)
      modifies this`seniors, this`nextSeniorId, this`events, this`history, this`nextHistoryId, this`notifications,
               this`nextNotificationId, this`live
      ensures Valid()
      ensures seniors == old(seniors)[s.id := s] && nextSeniorId == old(nextSeniorId) + 1
      ensures OutboxState() == PublishOf(old(OutboxState()), SeniorStateChangedEvent(s.id, None, s.state, RegistrationReason),
                                         s.profile.name, old(Admins()), env.now, env.sendOk, env.historyFails, env.notifyFails)
    {
      seniors := seniors[s.id := s];
      nextSeniorId := nextSeniorId + 1;
      Publish(SeniorStateChangedEvent(s.id, None, s.state, RegistrationReason), env);
    }

    /** createSenior: refused with nothing changed unless the doll exists and
        is free; otherwise the senior is stored under the next id with the
        form's profile, the saved photo's name, the initial state and the doll,
        and its registration is published as an event without a previous
        state. */
    method CreateSenior(d: SeniorRequests.SeniorRequest, photo: Option<string>, env: Env) returns (r: Result<int>)
      requires Valid() && SeniorRequests.Valid(d)
      modifies this`seniors, this`nextSeniorId, this`events, this`history, this`nextHistoryId, this`notifications,
               this`nextNotificationId, this`live
      ensures Valid()
      ensures RegistrationCheck(old(seniors), dolls, d.dollId.value).Fail? ==>
                && r == Fail(RegistrationCheck(old(seniors), dolls, d.dollId.value).error)
                && seniors == old(seniors) && nextSeniorId == old(nextSeniorId) && OutboxState() == old(OutboxState())
      ensures RegistrationCheck(old(seniors), dolls, d.dollId.value).Ok? ==>
                && r == Ok(old(nextSeniorId)) && r.value !in old(seniors) && nextSeniorId == r.value + 1
                && seniors == old(seniors)[r.value := Senior(r.value, ProfileOf(d), photo, InitialState, d.dollId.value)]
                && OutboxState() == PublishOf(old(OutboxState()), SeniorStateChangedEvent(r.value, None, InitialState, RegistrationReason),
                                              d.name, old(Admins()), env.now, env.sendOk, env.historyFails, env.notifyFails)
    {
      var dollId := d.dollId.value;
      var check := RegistrationCheck(seniors, dolls, dollId);
      if check.Fail? {
        return Fail(check.error);
      }
      var id := nextSeniorId;
      AddSenior(Senior(id, ProfileOf(d), photo, InitialState, dollId), env);
      r := Ok(id);
    }

    /** updateSenior: refused with nothing changed unless the checks pass;
        otherwise the senior takes the form's profile and doll and the new
        photo, keeping its state. No event is published. */
    method UpdateSenior(id: int, d: SeniorRequests.SeniorRequest, upload: Option<string>) returns (r: Result<()>)
      requires Valid()
      modifies this`seniors
      ensures Valid()
      ensures r == EditCheck(old(seniors), dolls, id, d.dollId)
      ensures r.Fail? ==> seniors == old(seniors)
      ensures r.Ok? ==> d.dollId.Some? && seniors == old(seniors)[id := Edited(old(seniors)[id], d, upload)]
    {
      r := EditCheck(seniors, dolls, id, d.dollId);
      if r.Ok? {
        seniors := seniors[id := Edited(seniors[id], d, upload)];
      }
    }

    /** deleteSenior: an unknown senior is refused; otherwise the senior is
        removed, which frees its doll. */
    method DeleteSenior(id: int) returns (r: Result<()>)
      requires Valid()
      modifies this`seniors
      ensures Valid()
      ensures r == if id in old(seniors) then Ok(()) else Fail(EntityNotFound(SeniorMissingMessage(id)))
      ensures seniors == old(seniors) - {id}
      ensures r.Ok? ==> HeldDolls(seniors) == HeldDolls(old(seniors)) - {old(seniors)[id].dollId}
    {
      if id !in seniors {
        return Fail(EntityNotFound(SeniorMissingMessage(id)));
      }
      HeldDollsRemove(seniors, id);
      seniors := seniors - {id};
      r := Ok(());
    }

    /** getDashboardData over the tables. `all` is findAll: the senior table
        in the repository's order. The latest results are
        findLatestOverallResultForEachSenior over the result table. The
        latest-change rows (`changeRows`) stay an input, because the query
        that yields them is not declared by the state-history repository. */
    method GetDashboardData(all: seq<Senior>, changeRows: seq<(int, int)>,
                            showTime: int -> string, showResult: OverallResult -> string)
      returns (r: Result<Dashboard.DashboardData>)
      requires Valid() && ListsTable(all, seniors)
      ensures r.Ok? <==> Dashboard.DistinctKeys(changeRows) && !exists a, b :: ResultQueries.TiedNewest(results, a, b)
      ensures Dashboard.ToMap(changeRows).DuplicateKey? ==> r == Fail(Dashboard.DuplicateKeyError(Dashboard.ToMap(changeRows), showTime))
      ensures Dashboard.ToMap(changeRows).Collected? && (exists a, b :: ResultQueries.TiedNewest(results, a, b)) ==>
                var latest := Dashboard.ToMap(Dashboard.BySenior(ResultQueries.LatestPerSenior(results)));
                latest.DuplicateKey? && r == Fail(Dashboard.DuplicateKeyError(latest, showResult))
      ensures r.Ok? ==> r.value.counts == Dashboard.Counts(all) && r.value.counts.total == |seniors|
      ensures r.Ok? ==> Dashboard.ToMap(changeRows).Collected?
                        && Dashboard.ToMap(Dashboard.BySenior(ResultQueries.LatestPerSenior(results))).Collected?
      ensures r.Ok? ==> forall k: Risk :: k in r.value.buckets && r.value.buckets[k] == Dashboard.Bucket(all, k,
                Dashboard.ToMap(changeRows).m, Dashboard.ToMap(Dashboard.BySenior(ResultQueries.LatestPerSenior(results))).m)
    {
      var latest := ResultQueries.LatestPerSenior(results);
      r := Dashboard.GetDashboardData(all, changeRows, latest, showTime, showResult);
      if exists a, b :: ResultQueries.TiedNewest(results, a, b) {
        var a, b :| ResultQueries.TiedNewest(results, a, b);
        Dashboard.LatestTieRepeatsKey(results, a, b);
      } else {
        Dashboard.LatestRowsDistinctWithoutTie(results);
      }
    }

    /** getSeniorStateHistory: the senior's history rows, newest first. */
    method GetSeniorStateHistory(seniorId: int) returns (r: Result<seq<StateHistory.SeniorStateHistory>>)
      ensures r == if seniorId in seniors then Ok(StateHistory.HistoryOf(history, seniorId))
                   else Fail(EntityNotFound(SeniorMissingMessage(seniorId)))
    {
      if seniorId !in seniors {
        return Fail(EntityNotFound(SeniorMissingMessage(seniorId)));
      }
      r := Ok(StateHistory.HistoryOf(history, seniorId));
    }

    /** The analysis part of updateSeniorState: the id must name an existing
        result of this senior, which is then resolved with the new state; no
        other result is touched. */
    method ResolveRequested(seniorId: int, resultId: int, newState: Risk) returns (r: Result<()>)
      requires Valid()
      modifies results
      ensures Valid()
      ensures ResultQueries.FindById(results, resultId).None? ==>
                r == Fail(EntityNotFound(ResultMissingMessage(resultId)))
      ensures ResultQueries.FindById(results, resultId).Some? ==>
                r == if ResultQueries.FindById(results, resultId).value.seniorId == seniorId then Ok(())
                     else Fail(IllegalArgument(ForeignResultMessage(seniorId)))
      ensures forall o :: o in results ==>
                o.ResolutionState() == if r.Ok? && o.id == resultId then Resolve(newState) else old(o.ResolutionState())
      ensures forall o :: o in results ==> o.dialogues == old(o.dialogues)
    {
      var k := ResultQueries.PositionOf(results, resultId);
      if k.None? {
        return Fail(EntityNotFound(ResultMissingMessage(resultId)));
      }
      var o := results[k.value];
      if o.seniorId != seniorId {
        return Fail(IllegalArgument(ForeignResultMessage(seniorId)));
      }
      o.ResolveWithLabel(newState);
      r := Ok(());
    }

    /** updateSeniorState: the checks decide the answer; a refused request
        changes nothing; an accepted one resolves the named analysis with the
        new state (even when the state stays the same) and then changes the
        state. */
    method UpdateSeniorState(seniorId: int, q: SeniorRequests.StateChangeRequest, env: Env) returns (r: Result<()>)
      requires Valid() && SeniorRequests.StateChangeValid(q)
      modifies this`seniors, this`events, this`history, this`nextHistoryId, this`notifications,
               this`nextNotificationId, this`live, results
      ensures Valid()
      ensures r == StateChangeCheck(old(seniors), results, seniorId, q.overallResultId)
      ensures forall o :: o in results ==>
                o.ResolutionState() ==
                  if r.Ok? && q.overallResultId == Some(o.id) then Resolve(q.newState.value) else old(o.ResolutionState())
      ensures forall o :: o in results ==> o.dialogues == old(o.dialogues)
      ensures r.Fail? ==> seniors == old(seniors) && OutboxState() == old(OutboxState())
      ensures r.Ok? ==> (seniors, OutboxState()) == StateChangeOf(old(seniors), old(OutboxState()), seniorId,
                                                                 q.newState.value, q.reason.value, old(Admins()), env)
    {
      if seniorId !in seniors {
        return Fail(EntityNotFound(SeniorMissingMessage(seniorId)));
      }
      var newState := q.newState.value;
      if q.overallResultId.Some? {
        ghost var admins := Admins();
        r := ResolveRequested(seniorId, q.overallResultId.value, newState);
        if r.Fail? {
          return;
        }
        assert Admins() == admins;
      }
      r := Ok(());
      ChangeState(seniorId, newState, q.reason.value, env);
    }

    /** The end of updateSeniorState: the state change of a request that
        passed its checks. */
    method ChangeState(seniorId: int, newState: Risk, reason: string, env: Env)
      requires Valid() && seniorId in seniors
      modifies this`seniors, this`events, this`history, this`nextHistoryId, this`notifications,
               this`nextNotificationId, this`live
      ensures Valid()
      ensures (seniors, OutboxState()) == StateChangeOf(old(seniors), old(OutboxState()), seniorId, newState, reason,
                                                        old(Admins()), env)
    {
      var s := seniors[seniorId];
      if s.state != newState {
        seniors := seniors[seniorId := s.(state := newState)];
        Publish(SeniorStateChangedEvent(seniorId, Some(s.state), newState, reason), env);
      }
    }
  
    // ---------------------------------------------------------------- analyses

    /** The record loop of analyzeAndSave over the records after the header. */
    method CollectDialogues(rows: seq<Upload.Row>, parse: string -> Option<int>)
      returns (r: Result<seq<Upload.DialogueRequest>>)
      ensures r == Upload.Scan(rows, true, dolls, HeldDolls(seniors), parse)
    {
      var held := HeldDolls(seniors);
      var firstCheck := true;
      var done: seq<Upload.DialogueRequest> := [];
      var i := 0;
      assert rows[0..] == rows;
      ghost var whole := Upload.Scan(rows, true, dolls, held, parse);
      assert whole.Ok? ==> [] + whole.value == whole.value;
      while i < |rows|
        invariant 0 <= i <= |rows|
        invariant Upload.Scan(rows, true, dolls, held, parse) == Prepend(done, Upload.Scan(rows[i..], firstCheck, dolls, held, parse))
      {
        var columns := rows[i];
        ghost var checking := firstCheck;
        assert rows[i..][0] == columns && rows[i..][1..] == rows[i + 1..];
        if |columns| < 3 {
          return Fail(Unhandled("ArrayIndexOutOfBoundsException"));
        }
        var dollId := Trim(columns[0]);
        var text := Trim(columns[1]);
        var utteredAt := Trim(columns[2]);
        if dollId == [] || text == [] || utteredAt == [] {
          i := i + 1;
          continue;
        }
        if firstCheck {
          if dollId !in dolls {
            return Fail(EntityNotFound(Upload.DollMissingMessage(dollId)));
          }
          if dollId !in held {
            return Fail(EntityNotFound(Upload.NoSeniorMessage));
          }
          firstCheck := false;
        }
        var time := parse(utteredAt);
        if time.None? {
          return Fail(InvalidFile(Upload.DateFormatMessage));
        }
        ghost var after := Upload.Scan(rows[i + 1..], false, dolls, held, parse);
        assert Upload.Scan(rows[i..], checking, dolls, held, parse)
            == Prepend([Upload.DialogueRequest(dollId, text, time.value)], after);
        assert after.Ok? ==>
                 done + ([Upload.DialogueRequest(dollId, text, time.value)] + after.value)
                 == (done + [Upload.DialogueRequest(dollId, text, time.value)]) + after.value;
        done := done + [Upload.DialogueRequest(dollId, text, time.value)];
        i := i + 1;
      }
      assert done + [] == done;
      return Ok(done);
    }

    /** The part of analyzeAndSave before anything is stored: the emptiness
        check, the record loop and the call to the analysis server. */
    method Analyze(file: seq<Upload.Row>, parse: string -> Option<int>,
                   analyze: seq<Upload.DialogueRequest> -> Result<AnalysisResponse>)
      returns (a: Result<AnalysisResponse>)
      ensures a == Answer(file, dolls, HeldDolls(seniors), parse, analyze)
    {
      if file == [] {
        return Fail(InvalidFile(Upload.EmptyFileMessage));
      }
      var requests := CollectDialogues(file[1..], parse);
      if requests.Fail? {
        return Fail(requests.error);
      }
      a := analyze(requests.value);
    }

    /** The result of saveAnalysisResult, built with its dialogues and saved
        under the next id. */
    method AddResult(seniorId: int, resp: AnalysisResponse, now: int) returns (o: OverallResult)
      requires Valid()
      modifies this`results, this`nextResultId
      ensures Valid()
      ensures fresh(o) && Saved(o, old(nextResultId), seniorId, resp, now)
      ensures results == old(results) + [o] && nextResultId == old(nextResultId) + 1
    {
      o := BuildResult(nextResultId, seniorId, resp, now);
      results := results + [o];
      nextResultId := nextResultId + 1;
    }

    /** saveAnalysisResult: refused with nothing changed unless the answer's
        doll exists and has a senior; otherwise a new unresolved result with
        the answer's dialogues is stored under the next id, the senior takes
        the answer's label as its state, and a changed state is published with
        a reason naming the new result. */
    method SaveAnalysisResult(resp: AnalysisResponse, env: Env) returns (r: Result<int>)
      requires Valid()
      modifies this`seniors, this`results, this`nextResultId, this`events, this`history, this`nextHistoryId,
               this`notifications, this`nextNotificationId, this`live
      ensures Valid()
      ensures AnalysisCheck(old(seniors), dolls, resp.overallResult.dollId).Fail? ==>
                && r == Fail(AnalysisCheck(old(seniors), dolls, resp.overallResult.dollId).error)
                && seniors == old(seniors) && results == old(results) && nextResultId == old(nextResultId)
                && OutboxState() == old(OutboxState())
      ensures AnalysisCheck(old(seniors), dolls, resp.overallResult.dollId).Ok? ==>
                var holder := HolderOf(old(seniors), resp.overallResult.dollId);
                && r == Ok(old(nextResultId)) && nextResultId == r.value + 1
                && |results| == |old(results)| + 1 && results[..|old(results)|] == old(results)
                && fresh(results[|old(results)|]) && Saved(results[|old(results)|], r.value, holder, resp, env.now)
                && (seniors, OutboxState()) == StateChangeOf(old(seniors), old(OutboxState()), holder, resp.overallResult.riskLabel,
                                                             AnalysisReason(r.value), old(Admins()), env)
    {
      var dollId := resp.overallResult.dollId;
      var check := AnalysisCheck(seniors, dolls, dollId);
      if check.Fail? {
        return Fail(check.error);
      }
      var o := RecordAnalysis(HolderOf(seniors, dollId), resp, env);
      r := Ok(o.id);
    }

    /** The part of saveAnalysisResult after the doll lookup: the new result
        is stored, then the senior takes the answer's label as its state. */
    method RecordAnalysis(holder: int, resp: AnalysisResponse, env: Env) returns (o: OverallResult)
      requires Valid() && holder in seniors
      modifies this`seniors, this`results, this`nextResultId, this`events, this`history, this`nextHistoryId,
               this`notifications, this`nextNotificationId, this`live
      ensures Valid()
      ensures results == old(results) + [o] && nextResultId == old(nextResultId) + 1
      ensures fresh(o) && Saved(o, old(nextResultId), holder, resp, env.now)
      ensures (seniors, OutboxState()) == StateChangeOf(old(seniors), old(OutboxState()), holder, resp.overallResult.riskLabel,
                                                        AnalysisReason(o.id), old(Admins()), env)
    {
      o := AddResult(holder, resp, env.now);
      ChangeState(holder, resp.overallResult.riskLabel, AnalysisReason(o.id), env);
    }

    /** getAnalysisDetails: a result that is not found (with its senior and
        doll) is refused; otherwise it comes back, editable exactly when its
        senior has no strictly newer result. */
    method GetAnalysisDetails(id: int) returns (r: Result<AnalysisDetail>)
      ensures ResultQueries.FindByIdWithDetails(results, seniors, dolls, id).None? ==>
                r == Fail(EntityNotFound(AnalysisMissingMessage(id)))
      ensures ResultQueries.FindByIdWithDetails(results, seniors, dolls, id).Some? ==>
                && r.Ok? && r.value.result == ResultQueries.FindByIdWithDetails(results, seniors, dolls, id).value
                && (r.value.isEditable <==>
                      forall i :: 0 <= i < |results| && results[i].seniorId == r.value.result.seniorId ==>
                                    results[i].timestamp <= r.value.result.timestamp)
    {
      var found := ResultQueries.FindByIdWithDetails(results, seniors, dolls, id);
      if found.None? {
        return Fail(EntityNotFound(AnalysisMissingMessage(id)));
      }
      var o := found.value;
      var hasNewerResult := ResultQueries.ExistsAfter(results, o.seniorId, o.timestamp);
      ResultQueries.ExistsAfterSpec(results, o.seniorId, o.timestamp);
      r := Ok(AnalysisDetail(o, !hasNewerResult));
    }

    /** deleteAnalysis: an unknown id is refused with nothing deleted;
        otherwise exactly the result with that id is removed. */
    method DeleteAnalysis(id: int) returns (r: Result<()>)
      requires Valid()
      modifies this`results
      ensures Valid()
      ensures r == if exists o :: o in old(results) && o.id == id then Ok(()) else Fail(EntityNotFound(AnalysisMissingMessage(id)))
      ensures r.Fail? ==> results == old(results)
      ensures forall o :: o in results <==> o in old(results) && o.id != id
      ensures |results| == |old(results)| - (if r.Ok? then 1 else 0)
    {
      WithoutResultSpec(results, id);
      if ResultQueries.PositionOf(results, id).None? {
        return Fail(EntityNotFound(AnalysisMissingMessage(id)));
      }
      results := WithoutResult(results, id);
      r := Ok(());
    }

    /** What analyzeAndSave does once the analysis server has answered: the
        answer is saved and, when that succeeded, the analysis-complete
        notification goes to every enabled administrator, whether or not the
        senior's state changed. */
    method SaveAndAnnounce(resp: AnalysisResponse, env: Env) returns (r: Result<int>)
      requires Valid()
      modifies this`seniors, this`results, this`nextResultId, this`events, this`history, this`nextHistoryId,
               this`notifications, this`nextNotificationId, this`live
      ensures Valid()
      ensures AnalysisCheck(old(seniors), dolls, resp.overallResult.dollId).Fail? ==>
                && r == Fail(AnalysisCheck(old(seniors), dolls, resp.overallResult.dollId).error)
                && seniors == old(seniors) && results == old(results) && OutboxState() == old(OutboxState())
      ensures AnalysisCheck(old(seniors), dolls, resp.overallResult.dollId).Ok? ==>
                var holder := HolderOf(old(seniors), resp.overallResult.dollId);
                var (after, o) := StateChangeOf(old(seniors), old(OutboxState()), holder, resp.overallResult.riskLabel,
                                                AnalysisReason(old(nextResultId)), old(Admins()), env);
                && r == Ok(old(nextResultId)) && |results| == |old(results)| + 1 && results[..|old(results)|] == old(results)
                && fresh(results[|old(results)|]) && Saved(results[|old(results)|], r.value, holder, resp, env.now)
                && seniors == after
                && OutboxState() == FanOutOf(o, old(Admins()), ANALYSIS_COMPLETE,
                                             AnalysisCompleteMessage(resp.overallResult.dollId, resp.overallResult.riskLabel),
                                             LongToString(r.value), env.now, env.sendOk)
    {
      r := SaveAnalysisResult(resp, env);
      if r.Ok? {
        FanOut(ANALYSIS_COMPLETE, AnalysisCompleteMessage(resp.overallResult.dollId, resp.overallResult.riskLabel),
               LongToString(r.value), env.now, env.sendOk);
      }
    }

    /** analyzeAndSave: the upload is read and sent for analysis; any failure
        up to the answer changes nothing; an answer is saved and announced. */
    method AnalyzeAndSave(file: seq<Upload.Row>, parse: string -> Option<int>,
                          analyze: seq<Upload.DialogueRequest> -> Result<AnalysisResponse>, env: Env)
      returns (r: Result<int>)
      requires Valid()
      modifies this`seniors, this`results, this`nextResultId, this`events, this`history, this`nextHistoryId,
               this`notifications, this`nextNotificationId, this`live
      ensures Valid()
      ensures Answer(file, dolls, HeldDolls(old(seniors)), parse, analyze).Fail? ==>
                && r == Fail(Answer(file, dolls, HeldDolls(old(seniors)), parse, analyze).error)
                && seniors == old(seniors) && results == old(results) && OutboxState() == old(OutboxState())
      ensures Answer(file, dolls, HeldDolls(old(seniors)), parse, analyze).Ok? ==>
                var resp := Answer(file, dolls, HeldDolls(old(seniors)), parse, analyze).value;
                var check := AnalysisCheck(old(seniors), dolls, resp.overallResult.dollId);
                && (check.Fail? ==> && r == Fail(check.error)
                                    && seniors == old(seniors) && results == old(results)
                                    && OutboxState() == old(OutboxState()))
                && (check.Ok? ==>
                      var holder := HolderOf(old(seniors), resp.overallResult.dollId);
                      var (after, o) := StateChangeOf(old(seniors), old(OutboxState()), holder, resp.overallResult.riskLabel,
                                                      AnalysisReason(old(nextResultId)), old(Admins()), env);
                      && r == Ok(old(nextResultId)) && |results| == |old(results)| + 1
                      && results[..|old(results)|] == old(results)
                      && Saved(results[|old(results)|], r.value, holder, resp, env.now)
                      && seniors == after
                      && OutboxState() == FanOutOf(o, old(Admins()), ANALYSIS_COMPLETE,
                                                   AnalysisCompleteMessage(resp.overallResult.dollId, resp.overallResult.riskLabel),
                                                   LongToString(r.value), env.now, env.sendOk))
    {
      var a := Analyze(file, parse, analyze);
      if a.Fail? {
        return Fail(a.error);
      }
      r := SaveAndAnnounce(a.value, env);
    }

    // ---------------------------------------------------------------- live connections

    /** subscribe: a new emitter, stored under the username in place of any
        earlier one; a failed connect message removes the entry again. */
    method Subscribe(username: string, connectOk: bool) returns (emitter: nat)
      requires Valid()
      modifies this`live, this`nextEmitter
      ensures Valid()
      ensures emitter == old(nextEmitter) && nextEmitter == emitter + 1
      ensures live == Subscribed(old(live), username, emitter, connectOk)
    {
      emitter := nextEmitter;
      nextEmitter := nextEmitter + 1;
      live := live.(emitters := live.emitters[username := emitter]);
      if !connectOk {
        live := live.(emitters := live.emitters - {username});
      }
    }

    /** The completion or timeout callback of an emitter subscribed for
        `username`. */
    method EmitterDone(username: string)
      requires Valid()
      modifies this`live
      ensures Valid()
      ensures live == Disconnected(old(live), username)
    {
      live := live.(emitters := live.emitters - {username});
    }

    // ---------------------------------------------------------------- notifications

    /** getNotificationsForUser. */
    method GetNotificationsForUser(username: string) returns (r: seq<Notification>)
      ensures r == ListFor(notifications, username)
    {
      r := ListFor(notifications, username);
    }

    /** markAsRead: an unknown id is refused; otherwise that one row becomes
        read and nothing else changes. */
    method MarkAsRead(id: int) returns (r: Result<()>)
      requires Valid()
      modifies this`notifications
      ensures Valid()
      ensures r == if exists n :: n in old(notifications) && n.id == id then Ok(())
                   else Fail(EntityNotFound(NotificationMissingMessage(id)))
      ensures |notifications| == |old(notifications)|
      ensures forall i :: 0 <= i < |notifications| ==>
                notifications[i] == if old(notifications)[i].id == id then old(notifications)[i].(isRead := true)
                                    else old(notifications)[i]
    {
      var k := Notifications.PositionOf(notifications, id);
      if k.None? {
        return Fail(EntityNotFound(NotificationMissingMessage(id)));
      }
      notifications := notifications[k.value := notifications[k.value].(isRead := true)];
      r := Ok(());
    }

    /** The bulk mark-all-read of the notification repository. */
    method MarkAllAsRead(username: string)
      requires Valid()
      modifies this`notifications
      ensures Valid()
      ensures notifications == MarkAllRead(old(notifications), username)
    {
      BulkOperationsKeepSound(OutboxState(), username);
      notifications := MarkAllRead(notifications, username);
    }

    /** The bulk delete of the notification repository. */
    method DeleteAllNotifications(username: string)
      requires Valid()
      modifies this`notifications
      ensures Valid()
      ensures notifications == DeleteAllFor(old(notifications), username)
    {
      BulkOperationsKeepSound(OutboxState(), username);
      notifications := DeleteAllFor(notifications, username);
    }

    // ---------------------------------------------------------------- members

    /** register: a taken username is refused with nothing saved; otherwise a
        new enabled administrator with the encoded password is appended. */
    method RegisterMember(username: string, password: string, encode: string -> string) returns (r: Result<()>)
      requires Valid()
      modifies this`members
      ensures Valid()
      ensures r == if exists m :: m in old(members) && m.username == username then Fail(IllegalArgument(UsernameTakenMessage))
                   else Ok(())
      ensures r.Fail? ==> members == old(members)
      ensures r.Ok? ==> |members| == |old(members)| + 1 && members[..|old(members)|] == old(members)
                        && fresh(members[|old(members)|]) && members[|old(members)|].username == username
                        && members[|old(members)|].AccountState() == Account(encode(password), ROLE_ADMIN, true)
    {
      if Members.PositionOf(members, username).Some? {
        return Fail(IllegalArgument(UsernameTakenMessage));
      }
      var m := new Member(username, encode(password), ROLE_ADMIN, true);
      members := members + [m];
      r := Ok(());
    }

    /** findMemberByUsername: the one member with that username. */
    method FindMemberByUsername(username: string) returns (r: Result<Member>)
      requires Valid()
      ensures r.Fail? <==> forall m :: m in members ==> m.username != username
      ensures r.Fail? ==> r == Fail(EntityNotFound(MemberMissingMessage(username)))
      ensures r.Ok? ==> r.value in members && r.value.username == username
                        && forall m :: m in members && m.username == username ==> m == r.value
    {
      var k := Members.PositionOf(members, username);
      if k.None? {
        return Fail(EntityNotFound(MemberMissingMessage(username)));
      }
      r := Ok(members[k.value]);
    }

    /** updateMember: an unknown username is refused; otherwise that member
        takes the update (a null argument keeps the current value) and no
        other member changes. */
    method UpdateMember(username: string, role: Option<Role>, enabled: Option<bool>) returns (r: Result<()>)
      requires Valid()
      modifies members
      ensures Valid()
      ensures r == if exists m :: m in members && m.username == username then Ok(())
                   else Fail(EntityNotFound(MemberMissingMessage(username)))
      ensures forall m :: m in members ==>
                m.AccountState() == if m.username == username then ApplyUpdate(old(m.AccountState()), role, enabled)
                                    else old(m.AccountState())
    {
      var k := Members.PositionOf(members, username);
      if k.None? {
        return Fail(EntityNotFound(MemberMissingMessage(username)));
      }
      members[k.value].Update(role, enabled);
      r := Ok(());
    }

    /** deleteMember: an unknown username is refused; otherwise exactly that
        member is removed. */
    method DeleteMember(username: string) returns (r: Result<()>)
      requires Valid()
      modifies this`members
      ensures Valid()
      ensures r == if exists m :: m in old(members) && m.username == username then Ok(())
                   else Fail(EntityNotFound(MemberMissingMessage(username)))
      ensures forall m :: m in members <==> m in old(members) && m.username != username
      ensures |members| == |old(members)| - (if r.Ok? then 1 else 0)
    {
      var k := Members.PositionOf(members, username);
      if k.None? {
        return Fail(EntityNotFound(MemberMissingMessage(username)));
      }
      var i := k.value;
      ghost var before := members;
      members := members[..i] + members[i + 1..];
      assert forall j :: 0 <= j < |members| ==> members[j] == before[if j < i then j else j + 1];
      forall m | m in before && m.username != username ensures m in members {
        var j :| 0 <= j < |before| && before[j] == m;
        assert members[if j < i then j else j - 1] == m;
      }
      r := Ok(());
    }

    // ---------------------------------------------------------------- dolls

    /** createDoll: a taken id is refused; otherwise the doll is added. */
    method CreateDoll(id: string) returns (r: Result<()>)
      requires Valid()
      modifies this`dolls
      ensures Valid()
      ensures r == if id in old(dolls) then Fail(IllegalArgument(DollIdTakenMessage)) else Ok(())
      ensures dolls == old(dolls) + {id}
    {
      if id in dolls {
        return Fail(IllegalArgument(DollIdTakenMessage));
      }
      dolls := dolls + {id};
      r := Ok(());
    }

    /** getDollById: an unknown doll is refused; otherwise the id of the
        senior the doll is assigned to, if any. */
    method GetDollById(id: string) returns (r: Result<Option<int>>)
      requires Valid()
      ensures id !in dolls ==> r == Fail(EntityNotFound(DollNotFoundMessage(id)))
      ensures id in dolls ==> r.Ok? && (r.value.Some? <==> exists s :: s in seniors && seniors[s].dollId == id)
      ensures r.Ok? && r.value.Some? ==> r.value.value in seniors && seniors[r.value.value].dollId == id
    {
      if id !in dolls {
        return Fail(EntityNotFound(DollNotFoundMessage(id)));
      }
      if id in HeldDolls(seniors) {
        r := Ok(Some(HolderOf(seniors, id)));
      } else {
        r := Ok(None);
      }
    }

    /** deleteDoll: an unknown doll, or one assigned to a senior, is refused
        and stays; otherwise the doll is removed. */
    method DeleteDoll(id: string) returns (r: Result<()>)
      requires Valid()
      modifies this`dolls
      ensures Valid()
      ensures id !in old(dolls) ==> r == Fail(EntityNotFound(DollNotFoundMessage(id)))
      ensures id in old(dolls) && id in HeldDolls(seniors) ==>
                r == Fail(IllegalState(DollAssignedMessage(HolderOf(seniors, id))))
      ensures id in old(dolls) && id !in HeldDolls(seniors) ==> r == Ok(())
      ensures dolls == if r.Ok? then old(dolls) - {id} else old(dolls)
    {
      if id !in dolls {
        return Fail(EntityNotFound(DollNotFoundMessage(id)));
      }
      if id in HeldDolls(seniors) {
        return Fail(IllegalState(DollAssignedMessage(HolderOf(seniors, id))));
      }
      dolls := dolls - {id};
      r := Ok(());
    }
  }
}
