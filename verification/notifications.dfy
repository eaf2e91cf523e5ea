/** Persisted notifications: the per-recipient listing, the bulk
    mark-all-read UPDATE and the bulk DELETE of the notification repository,
    and the texts of the two notification kinds. */
module Notifications {
  import opened Domain
  import opened Text
  import opened Ordering

  /** A stored notification. It is created unread. */
  datatype Notification = Notification(
    id: int,
    recipient: string,
    kind: NotificationType,
    message: string,
    relatedResourceId: string,
    createdAt: int,
    isRead: bool)

  predicate IsFor(username: string, n: Notification) {
    n.recipient == username
  }

  function NewerFirst(a: Notification, b: Notification): bool {
    a.createdAt >= b.createdAt
  }

  /** findByRecipientUsernameOrderByCreatedAtDesc. */
  function ListFor(ns: seq<Notification>, username: string): seq<Notification> {
    Sort(Filter(ns, n => IsFor(username, n)), NewerFirst)
  }

  /** The listing holds only the user's notifications, all of them, newest first. */
  lemma ListForSpec(ns: seq<Notification>, username: string)
    ensures forall n :: n in ListFor(ns, username) ==> n.recipient == username && n in ns
    ensures forall i :: 0 <= i < |ns| && ns[i].recipient == username ==> ns[i] in ListFor(ns, username)
    ensures |ListFor(ns, username)| == |Filter(ns, n => IsFor(username, n))|
    ensures forall i, j :: 0 <= i < j < |ListFor(ns, username)| ==>
              ListFor(ns, username)[i].createdAt >= ListFor(ns, username)[j].createdAt
  {
    var f := Filter(ns, n => IsFor(username, n));
    FilterMultiset(ns, n => IsFor(username, n));
    var r := ListFor(ns, username);
    SortSorted(f, NewerFirst);
    assert |r| == |multiset(r)| == |multiset(f)| == |f|;
    forall n | n in r ensures n.recipient == username && n in ns {
      assert n in multiset(f);
      assert n in multiset(ns);
      var k :| 0 <= k < |f| && f[k] == n;
    }
    forall i | 0 <= i < |ns| && ns[i].recipient == username ensures ns[i] in r {
      assert multiset(f)[ns[i]] == multiset(ns)[ns[i]];
      assert ns[i] in multiset(ns);
      assert ns[i] in multiset(r);
    }
  }

  /** One row under "UPDATE ... SET isRead = true WHERE recipient = :username AND isRead = false". */
  function MarkRead(n: Notification, username: string): Notification {
    if n.recipient == username && !n.isRead then n.(isRead := true) else n
  }

  /** markAllAsReadByUsername over the whole table. */
  function MarkAllRead(ns: seq<Notification>, username: string): (r: seq<Notification>)
    ensures |r| == |ns|
    ensures forall i :: 0 <= i < |ns| ==> r[i] == MarkRead(ns[i], username)
  {
    seq(|ns|, i requires 0 <= i < |ns| => MarkRead(ns[i], username))
  }

  /** After mark-all-read the user has no unread row, other users' rows and
      every other column are untouched, and a second call changes nothing. */
  lemma MarkAllReadSpec(ns: seq<Notification>, username: string)
    ensures forall n :: n in MarkAllRead(ns, username) && n.recipient == username ==> n.isRead
    ensures forall i :: 0 <= i < |ns| && ns[i].recipient != username ==> MarkAllRead(ns, username)[i] == ns[i]
    ensures forall i :: 0 <= i < |ns| ==> MarkAllRead(ns, username)[i] == ns[i].(isRead := MarkAllRead(ns, username)[i].isRead)
    ensures MarkAllRead(MarkAllRead(ns, username), username) == MarkAllRead(ns, username)
  {
    var r := MarkAllRead(ns, username);
    forall n | n in r && n.recipient == username ensures n.isRead {
      var k :| 0 <= k < |r| && r[k] == n;
    }
  }

  /** deleteAllByUsername over the whole table. */
  function DeleteAllFor(ns: seq<Notification>, username: string): seq<Notification> {
    Filter(ns, n => !IsFor(username, n))
  }

  /** Delete-all removes every row of the user and keeps every other row; with
      nothing to delete it leaves the table as it is; afterwards the user's
      listing is empty. */
  lemma DeleteAllForSpec(ns: seq<Notification>, username: string)
    ensures forall n :: n in DeleteAllFor(ns, username) ==> n.recipient != username && n in ns
    ensures forall i :: 0 <= i < |ns| && ns[i].recipient != username ==> ns[i] in DeleteAllFor(ns, username)
    ensures (forall i :: 0 <= i < |ns| ==> ns[i].recipient != username) ==> DeleteAllFor(ns, username) == ns
    ensures ListFor(DeleteAllFor(ns, username), username) == []
  {
    var d := DeleteAllFor(ns, username);
    FilterMultiset(ns, n => !IsFor(username, n));
    forall n | n in d ensures n.recipient != username && n in ns {
      var k :| 0 <= k < |d| && d[k] == n;
      assert n in multiset(d);
    }
    forall i | 0 <= i < |ns| && ns[i].recipient != username ensures ns[i] in d {
      assert ns[i] in multiset(ns);
      assert ns[i] in multiset(d);
    }
    if forall i :: 0 <= i < |ns| ==> ns[i].recipient != username {
      FilterKeepsAll(ns, n => !IsFor(username, n));
    }
    var f := Filter(d, n => IsFor(username, n));
    FilterMultiset(d, n => IsFor(username, n));
  }

  /** Row ids grow along the table, as an identity column hands them out. */
  predicate IdsIncreasing(ns: seq<Notification>) {
    forall i, j :: 0 <= i < j < |ns| ==> ns[i].id < ns[j].id
  }

  /** The bulk update and the bulk delete keep the rows in id order. */
  lemma BulkOperationsKeepIdOrder(ns: seq<Notification>, username: string)
    requires IdsIncreasing(ns)
    ensures IdsIncreasing(MarkAllRead(ns, username))
    ensures IdsIncreasing(DeleteAllFor(ns, username))
  {
    FilterKeepsIncreasing(ns, n => !IsFor(username, n), (n: Notification) => n.id);
  }

  /** The position of the row with that id, if any. */
  function PositionOf(ns: seq<Notification>, id: int): (r: Option<nat>)
    ensures r.Some? ==> r.value < |ns| && ns[r.value].id == id
    ensures r.None? ==> forall n :: n in ns ==> n.id != id
  {
    if ns == [] then None
    else if ns[0].id == id then Some(0)
    else match PositionOf(ns[1..], id)
      case None => None
      case Some(k) => Some(k + 1)
  }

  /** Filtering by a predicate every element satisfies returns the sequence. */
  lemma {:induction false} FilterKeepsAll<T>(s: seq<T>, p: T -> bool)
    requires forall i :: 0 <= i < |s| ==> p(s[i])
    ensures Filter(s, p) == s
  {
    if s != [] {
      FilterKeepsAll(s[1..], p);
      assert [s[0]] + s[1..] == s;
    }
  }

  /** String.format("%s", x) of a possibly-null string prints "null" for null. */
  function Display(s: Option<string>): string {
    if s.Some? then s.value else "null"
  }

  /** The previous state as the state-change text shows it. */
  function PreviousName(previous: Option<Risk>): string {
    if previous.Some? then RiskName(previous.value) else "신규"
  }

  /** The SENIOR_STATE_CHANGED text. */
  function StateChangeMessage(seniorName: Option<string>, previous: Option<Risk>, newState: Risk, reason: string): string {
    "'" + (Display(seniorName) + ("'님의 상태가 " + (PreviousName(previous) + ("에서 "
    + (RiskName(newState) + ("로 변경되었습니다. (사유: " + (reason + ")")))))))
  }

  /** The state-change text names the senior, the previous state ("신규" when
      there is none), the new state and the reason. */
  lemma StateChangeMessageMentions(seniorName: Option<string>, previous: Option<Risk>, newState: Risk, reason: string)
    ensures Contains(StateChangeMessage(seniorName, previous, newState, reason), Display(seniorName))
    ensures Contains(StateChangeMessage(seniorName, previous, newState, reason), PreviousName(previous))
    ensures previous.None? ==> Contains(StateChangeMessage(seniorName, previous, newState, reason), "신규")
    ensures Contains(StateChangeMessage(seniorName, previous, newState, reason), RiskName(newState))
    ensures Contains(StateChangeMessage(seniorName, previous, newState, reason), reason)
  {
    var t5 := reason + ")";
    var t4 := RiskName(newState) + ("로 변경되었습니다. (사유: " + t5);
    var t3 := PreviousName(previous) + ("에서 " + t4);
    var t2 := Display(seniorName) + ("'님의 상태가 " + t3);
    ContainsHead(reason, ")");
    ContainsAfter("로 변경되었습니다. (사유: ", t5, reason);
    ContainsAfter(RiskName(newState), "로 변경되었습니다. (사유: " + t5, reason);
    ContainsHead(RiskName(newState), "로 변경되었습니다. (사유: " + t5);
    Lift2(PreviousName(previous), "에서 ", t4, reason, RiskName(newState));
    ContainsHead(PreviousName(previous), "에서 " + t4);
    Lift3(Display(seniorName), "'님의 상태가 ", t3, reason, RiskName(newState), PreviousName(previous));
    ContainsHead(Display(seniorName), "'님의 상태가 " + t3);
    Lift4("'", t2, reason, RiskName(newState), PreviousName(previous), Display(seniorName));
  }

  lemma Lift2(a: string, b: string, s: string, x: string, y: string)
    requires Contains(s, x) && Contains(s, y)
    ensures Contains(a + (b + s), x) && Contains(a + (b + s), y)
  {
    ContainsAfter(b, s, x);
    ContainsAfter(a, b + s, x);
    ContainsAfter(b, s, y);
    ContainsAfter(a, b + s, y);
  }

  lemma Lift3(a: string, b: string, s: string, x: string, y: string, z: string)
    requires Contains(s, x) && Contains(s, y) && Contains(s, z)
    ensures Contains(a + (b + s), x) && Contains(a + (b + s), y) && Contains(a + (b + s), z)
  {
    Lift2(a, b, s, x, y);
    ContainsAfter(b, s, z);
    ContainsAfter(a, b + s, z);
  }

  lemma Lift4(a: string, s: string, x: string, y: string, z: string, w: string)
    requires Contains(s, x) && Contains(s, y) && Contains(s, z) && Contains(s, w)
    ensures Contains(a + s, x) && Contains(a + s, y) && Contains(a + s, z) && Contains(a + s, w)
  {
    ContainsAfter(a, s, x);
    ContainsAfter(a, s, y);
    ContainsAfter(a, s, z);
    ContainsAfter(a, s, w);
  }

  /** The ANALYSIS_COMPLETE text. */
  function AnalysisCompleteMessage(dollId: string, riskLabel: Risk): string {
    "인형 '" + (dollId + ("'의 분석이 완료되었습니다. (결과: " + (RiskName(riskLabel) + ")")))
  }

  /** The analysis-complete text names the doll and the analysed label. */
  lemma AnalysisCompleteMessageMentions(dollId: string, riskLabel: Risk)
    ensures Contains(AnalysisCompleteMessage(dollId, riskLabel), dollId)
    ensures Contains(AnalysisCompleteMessage(dollId, riskLabel), RiskName(riskLabel))
  {
    var t2 := RiskName(riskLabel) + ")";
    ContainsHead(RiskName(riskLabel), ")");
    ContainsAfter("'의 분석이 완료되었습니다. (결과: ", t2, RiskName(riskLabel));
    ContainsAfter(dollId, "'의 분석이 완료되었습니다. (결과: " + t2, RiskName(riskLabel));
    ContainsHead(dollId, "'의 분석이 완료되었습니다. (결과: " + t2);
    Lift4("인형 '", dollId + ("'의 분석이 완료되었습니다. (결과: " + t2), dollId, RiskName(riskLabel), dollId, dollId);
  }
}
