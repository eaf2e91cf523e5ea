/** What publishing a state-change event and fanning out a notification do,
    as values: the event log, the state-history table, the notification table
    and the live connections, with their id generators. */
module Publishing {
  import opened Domain
  import opened Text
  import opened Notifications
  import opened Delivery
  import opened Ordering
  import StateHistory

  /** The part of the system the listeners and the notification service write. */
  datatype Outbox = Outbox(
    events: seq<Event>,
    history: seq<StateHistory.SeniorStateHistory>,
    nextHistoryId: int,
    notifications: seq<Notification>,
    nextNotificationId: int,
    live: Live,
    nextEmitter: nat)

  /** Notification ids grow along the table and stay below the generator, and
      every live emitter was handed out earlier. */
  predicate Sound(o: Outbox) {
    && IdsIncreasing(o.notifications)
    && (forall i :: 0 <= i < |o.notifications| ==> o.notifications[i].id < o.nextNotificationId)
    && (forall u :: u in o.live.emitters ==> o.live.emitters[u] < o.nextEmitter)
  }

  /** One fan-out: a row per recipient saved under the next ids, each pushed
      right after it is saved. */
  function FanOutOf(o: Outbox, recipients: seq<string>, kind: NotificationType, message: string,
                    resourceId: string, now: int, sendOk: (nat, int) -> bool): Outbox
  {
    var rows := NewNotifications(recipients, o.nextNotificationId, kind, message, resourceId, now);
    o.(notifications := o.notifications + rows,
       nextNotificationId := o.nextNotificationId + |rows|,
       live := Deliver(o.live, rows, sendOk))
  }

  /** A fan-out keeps the outbox sound. */
  lemma FanOutKeepsSound(o: Outbox, recipients: seq<string>, kind: NotificationType, message: string,
                         resourceId: string, now: int, sendOk: (nat, int) -> bool)
    requires Sound(o)
    ensures Sound(FanOutOf(o, recipients, kind, message, resourceId, now, sendOk))
  {
    var rows := NewNotifications(recipients, o.nextNotificationId, kind, message, resourceId, now);
    FreshRowsKeepIdOrder(o.notifications, recipients, o.nextNotificationId, kind, message, resourceId, now);
    DeliverSpec(o.live, rows, sendOk);
  }

  /** A fan-out appends exactly one unread row per recipient (in recipient
      order, with the given kind, message and resource id), never adds a
      connection, and pushes only its own rows, each over its recipient's
      emitter. */
  lemma FanOutOfSpec(o: Outbox, recipients: seq<string>, kind: NotificationType, message: string,
                     resourceId: string, now: int, sendOk: (nat, int) -> bool)
    ensures var r := FanOutOf(o, recipients, kind, message, resourceId, now, sendOk);
            && r.events == o.events && r.history == o.history && r.nextEmitter == o.nextEmitter
            && |r.notifications| == |o.notifications| + |recipients|
            && r.notifications[..|o.notifications|] == o.notifications
            && (forall k :: 0 <= k < |recipients| ==>
                  var n := r.notifications[|o.notifications| + k];
                  n.recipient == recipients[k] && n.kind == kind && n.message == message
                  && n.relatedResourceId == resourceId && !n.isRead)
            && r.live.emitters.Keys <= o.live.emitters.Keys
            && (forall k :: |o.live.pushes| <= k < |r.live.pushes| ==>
                  var p := r.live.pushes[k];
                  p.notification in r.notifications[|o.notifications|..]
                  && p.notification.recipient in o.live.emitters
                  && p.emitter == o.live.emitters[p.notification.recipient])
  {
    var rows := NewNotifications(recipients, o.nextNotificationId, kind, message, resourceId, now);
    var r := FanOutOf(o, recipients, kind, message, resourceId, now, sendOk);
    DeliverSpec(o.live, rows, sendOk);
    assert r.notifications[|o.notifications|..] == rows;
  }

  /** The rows part of FanOutOfSpec on its own. */
  lemma FanOutRows(o: Outbox, recipients: seq<string>, kind: NotificationType, message: string,
                   resourceId: string, now: int, sendOk: (nat, int) -> bool)
    ensures var r := FanOutOf(o, recipients, kind, message, resourceId, now, sendOk);
            && |r.notifications| == |o.notifications| + |recipients|
            && r.notifications[..|o.notifications|] == o.notifications
            && (forall k :: 0 <= k < |recipients| ==>
                  var n := r.notifications[|o.notifications| + k];
                  n.recipient == recipients[k] && n.kind == kind && n.message == message
                  && n.relatedResourceId == resourceId && !n.isRead)
  {
  }

  /** A fan-out reaches every connected recipient: when no recipient is named
      twice, a recipient who had an emitter before the fan-out and whose send
      over it succeeds receives its own row over that emitter. */
  lemma FanOutReaches(o: Outbox, recipients: seq<string>, kind: NotificationType, message: string,
                      resourceId: string, now: int, sendOk: (nat, int) -> bool, k: int)
    requires forall i, j :: 0 <= i < j < |recipients| ==> recipients[i] != recipients[j]
    requires 0 <= k < |recipients| && recipients[k] in o.live.emitters
    requires sendOk(o.live.emitters[recipients[k]], o.nextNotificationId + k)
    ensures var r := FanOutOf(o, recipients, kind, message, resourceId, now, sendOk);
            Push(o.live.emitters[recipients[k]], r.notifications[|o.notifications| + k]) in r.live.pushes
  {
    var rows := NewNotifications(recipients, o.nextNotificationId, kind, message, resourceId, now);
    assert RecipientsDistinct(rows);
    DeliverReaches(o.live, rows, sendOk, k);
  }

  /** The bulk mark-all-read and the bulk delete keep the outbox sound. */
  lemma BulkOperationsKeepSound(o: Outbox, username: string)
    requires Sound(o)
    ensures Sound(o.(notifications := MarkAllRead(o.notifications, username)))
    ensures Sound(o.(notifications := DeleteAllFor(o.notifications, username)))
  {
    BulkOperationsKeepIdOrder(o.notifications, username);
    var d := DeleteAllFor(o.notifications, username);
    FilterMultiset(o.notifications, n => !IsFor(username, n));
    forall i | 0 <= i < |d| ensures d[i].id < o.nextNotificationId {
      assert d[i] in multiset(d);
      var j :| 0 <= j < |o.notifications| && o.notifications[j] == d[i];
    }
  }

  /** Publishing `e` about a senior named `seniorName`: the event is logged;
      the history listener saves a row copying it unless it fails; the
      notification listener fans the state-change message out to `admins`
      unless it fails. A failing listener leaves no trace. */
  function PublishOf(o: Outbox, e: Event, seniorName: Option<string>, admins: seq<string>,
                     now: int, sendOk: (nat, int) -> bool, historyFails: bool, notifyFails: bool): Outbox
  {
    var recorded := Recorded(o, e, now, historyFails);
    if notifyFails then recorded
    else FanOutOf(recorded, admins, SENIOR_STATE_CHANGED,
                  StateChangeMessage(seniorName, e.previousState, e.newState, e.reason),
                  LongToString(e.seniorId), now, sendOk)
  }

  /** The outbox after the history listener ran on a logged event. */
  function Recorded(o: Outbox, e: Event, now: int, historyFails: bool): (r: Outbox)
    ensures r.notifications == o.notifications && r.nextNotificationId == o.nextNotificationId
    ensures r.live == o.live && r.nextEmitter == o.nextEmitter
  {
    var logged := o.(events := o.events + [e]);
    if historyFails then logged
    else logged.(history := logged.history + [StateHistory.FromEvent(logged.nextHistoryId, e, now)],
                 nextHistoryId := logged.nextHistoryId + 1)
  }

  /** Publishing keeps the outbox sound and logs the event once, and a
      working history listener adds one row that gives back the event, under
      the next history id and stamped now. */
  lemma PublishOfSpec(o: Outbox, e: Event, seniorName: Option<string>, admins: seq<string>,
                      now: int, sendOk: (nat, int) -> bool, historyFails: bool, notifyFails: bool)
    requires Sound(o)
    ensures var r := PublishOf(o, e, seniorName, admins, now, sendOk, historyFails, notifyFails);
            && Sound(r)
            && r.events == o.events + [e]
            && r.nextEmitter == o.nextEmitter
            && (historyFails ==> r.history == o.history)
            && (!historyFails ==>
                  |r.history| == |o.history| + 1 && r.history[..|o.history|] == o.history
                  && StateHistory.EventOf(r.history[|o.history|]) == e
                  && r.history[|o.history|].id == o.nextHistoryId && r.history[|o.history|].changedAt == now)
  {
    var recorded := Recorded(o, e, now, historyFails);
    var message := StateChangeMessage(seniorName, e.previousState, e.newState, e.reason);
    assert PublishOf(o, e, seniorName, admins, now, sendOk, historyFails, notifyFails)
        == if notifyFails then recorded
           else FanOutOf(recorded, admins, SENIOR_STATE_CHANGED, message, LongToString(e.seniorId), now, sendOk);
    StateHistory.FromEventRoundTrip(o.nextHistoryId, e, now);
    if !notifyFails {
      FanOutKeepsSound(recorded, admins, SENIOR_STATE_CHANGED, message, LongToString(e.seniorId), now, sendOk);
    }
  }

  /** A failing notification listener leaves the notifications and the
      connections as they were; a working one adds one unread state-change row
      per administrator, in order, about the senior, carrying the message
      built from the senior's name, both states and the reason. */
  lemma PublishOfNotifies(o: Outbox, e: Event, seniorName: Option<string>, admins: seq<string>,
                          now: int, sendOk: (nat, int) -> bool, historyFails: bool, notifyFails: bool)
    requires Sound(o)
    ensures var r := PublishOf(o, e, seniorName, admins, now, sendOk, historyFails, notifyFails);
            && (notifyFails ==> r.notifications == o.notifications && r.live == o.live)
            && (!notifyFails ==>
                  |r.notifications| == |o.notifications| + |admins|
                  && r.notifications[..|o.notifications|] == o.notifications
                  && forall k :: 0 <= k < |admins| ==>
                       var n := r.notifications[|o.notifications| + k];
                       n.recipient == admins[k] && n.kind == SENIOR_STATE_CHANGED && !n.isRead
                       && n.relatedResourceId == LongToString(e.seniorId)
                       && n.message == StateChangeMessage(seniorName, e.previousState, e.newState, e.reason))
  {
    var recorded := Recorded(o, e, now, historyFails);
    var r := PublishOf(o, e, seniorName, admins, now, sendOk, historyFails, notifyFails);
    if notifyFails {
      assert r == recorded;
    } else {
      var message := StateChangeMessage(seniorName, e.previousState, e.newState, e.reason);
      assert r == FanOutOf(recorded, admins, SENIOR_STATE_CHANGED, message, LongToString(e.seniorId), now, sendOk);
      FanOutRows(recorded, admins, SENIOR_STATE_CHANGED, message, LongToString(e.seniorId), now, sendOk);
    }
  }

  /** The state-change notice reaches every connected administrator: with a
      working notification listener and no administrator listed twice, one
      whose emitter existed before publishing and whose send succeeds receives
      its row over that emitter. */
  lemma PublishOfReaches(o: Outbox, e: Event, seniorName: Option<string>, admins: seq<string>,
                         now: int, sendOk: (nat, int) -> bool, historyFails: bool, k: int)
    requires forall i, j :: 0 <= i < j < |admins| ==> admins[i] != admins[j]
    requires 0 <= k < |admins| && admins[k] in o.live.emitters
    requires sendOk(o.live.emitters[admins[k]], o.nextNotificationId + k)
    ensures var r := PublishOf(o, e, seniorName, admins, now, sendOk, historyFails, false);
            Push(o.live.emitters[admins[k]], r.notifications[|o.notifications| + k]) in r.live.pushes
  {
    var recorded := Recorded(o, e, now, historyFails);
    var message := StateChangeMessage(seniorName, e.previousState, e.newState, e.reason);
    FanOutReaches(recorded, admins, SENIOR_STATE_CHANGED, message, LongToString(e.seniorId), now, sendOk, k);
  }
}
