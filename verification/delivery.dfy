/** Notification fan-out and live delivery, as values: the rows a fan-out
    saves, and how the username-to-emitter map and the log of delivered pushes
    evolve while the rows are pushed one by one. Whether a send over a given
    emitter succeeds is an input (`sendOk`): transport, serialisation and
    timing are outside the model. */
module Delivery {
  import opened Domain
  import opened Notifications

  /** One successful send: the emitter used and the notification sent. */
  datatype Push = Push(emitter: nat, notification: Notification)

  /** The live-connection state: the emitter map and the pushes sent so far. */
  datatype Live = Live(emitters: map<string, nat>, pushes: seq<Push>)

  /** The rows one fan-out saves: one unread notification per recipient, in
      recipient order, with consecutive ids from `firstId`. */
  function NewNotifications(recipients: seq<string>, firstId: int, kind: NotificationType,
                            message: string, resourceId: string, now: int): (r: seq<Notification>)
    ensures |r| == |recipients|
    ensures forall k :: 0 <= k < |r| ==>
              r[k] == Notification(firstId + k, recipients[k], kind, message, resourceId, now, false)
  {
    seq(|recipients|, k requires 0 <= k < |recipients| =>
      Notification(firstId + k, recipients[k], kind, message, resourceId, now, false))
  }

  /** Extending the recipients by one extends the rows by that recipient's row. */
  lemma NewNotificationsSnoc(recipients: seq<string>, u: string, firstId: int, kind: NotificationType,
                             message: string, resourceId: string, now: int)
    ensures NewNotifications(recipients + [u], firstId, kind, message, resourceId, now)
         == NewNotifications(recipients, firstId, kind, message, resourceId, now)
            + [Notification(firstId + |recipients|, u, kind, message, resourceId, now, false)]
  {
  }

  /** Rows saved after the table with ids from a fresh `firstId` keep the
      table in id order, and every id stays below the next one handed out. */
  lemma FreshRowsKeepIdOrder(saved: seq<Notification>, recipients: seq<string>, firstId: int,
                             kind: NotificationType, message: string, resourceId: string, now: int)
    requires IdsIncreasing(saved) && forall i :: 0 <= i < |saved| ==> saved[i].id < firstId
    ensures IdsIncreasing(saved + NewNotifications(recipients, firstId, kind, message, resourceId, now))
    ensures forall i :: 0 <= i < |saved| + |recipients| ==>
              (saved + NewNotifications(recipients, firstId, kind, message, resourceId, now))[i].id < firstId + |recipients|
  {
  }

  /** sendNotificationToUser: with no emitter for the recipient nothing
      happens; a successful send is logged; a failed one drops the recipient's
      map entry. No failure escapes. */
  function SendTo(live: Live, n: Notification, sendOk: (nat, int) -> bool): Live {
    var u := n.recipient;
    if u !in live.emitters then live
    else
      var e := live.emitters[u];
      if sendOk(e, n.id) then Live(live.emitters, live.pushes + [Push(e, n)])
      else Live(live.emitters - {u}, live.pushes)
  }

  /** One send touches only the recipient's entry: it either logs one push over
      the recipient's current emitter, or removes the entry, or (offline)
      changes nothing. */
  lemma SendToSpec(live: Live, n: Notification, sendOk: (nat, int) -> bool)
    ensures n.recipient !in live.emitters ==> SendTo(live, n, sendOk) == live
    ensures n.recipient in live.emitters && sendOk(live.emitters[n.recipient], n.id) ==>
              SendTo(live, n, sendOk) == Live(live.emitters, live.pushes + [Push(live.emitters[n.recipient], n)])
    ensures n.recipient in live.emitters && !sendOk(live.emitters[n.recipient], n.id) ==>
              SendTo(live, n, sendOk).emitters == live.emitters - {n.recipient}
              && SendTo(live, n, sendOk).pushes == live.pushes
    ensures forall u :: u != n.recipient ==>
              (u in SendTo(live, n, sendOk).emitters <==> u in live.emitters)
              && (u in live.emitters ==> SendTo(live, n, sendOk).emitters[u] == live.emitters[u])
  {
  }

  /** Pushing `ns` one after the other. */
  function Deliver(live: Live, ns: seq<Notification>, sendOk: (nat, int) -> bool): Live {
    if ns == [] then live
    else SendTo(Deliver(live, ns[..|ns| - 1], sendOk), ns[|ns| - 1], sendOk)
  }

  /** Delivery never adds or re-points an entry, drops only entries of
      recipients of `ns`, keeps the earlier pushes, and sends only notifications
      of `ns`, each to its own recipient's emitter. */
  lemma {:induction false} DeliverSpec(live: Live, ns: seq<Notification>, sendOk: (nat, int) -> bool)
    ensures Deliver(live, ns, sendOk).emitters.Keys <= live.emitters.Keys
    ensures forall u :: u in Deliver(live, ns, sendOk).emitters ==>
              Deliver(live, ns, sendOk).emitters[u] == live.emitters[u]
    ensures forall u :: u in live.emitters && u !in Deliver(live, ns, sendOk).emitters ==>
              exists k :: 0 <= k < |ns| && ns[k].recipient == u
    ensures live.pushes <= Deliver(live, ns, sendOk).pushes
    ensures forall k :: |live.pushes| <= k < |Deliver(live, ns, sendOk).pushes| ==>
              Deliver(live, ns, sendOk).pushes[k].notification in ns
              && Deliver(live, ns, sendOk).pushes[k].notification.recipient in live.emitters
              && Deliver(live, ns, sendOk).pushes[k].emitter == live.emitters[Deliver(live, ns, sendOk).pushes[k].notification.recipient]
  {
    if ns != [] {
      var front := ns[..|ns| - 1];
      var n := ns[|ns| - 1];
      DeliverSpec(live, front, sendOk);
      var mid := Deliver(live, front, sendOk);
      var after := SendTo(mid, n, sendOk);
      assert after == Deliver(live, ns, sendOk);
      forall u | u in live.emitters && u !in after.emitters
        ensures exists k :: 0 <= k < |ns| && ns[k].recipient == u
      {
        if u in mid.emitters {
          assert ns[|ns| - 1].recipient == u;
        } else {
          var k :| 0 <= k < |front| && front[k].recipient == u;
          assert ns[k] == front[k];
        }
      }
      forall k | |live.pushes| <= k < |after.pushes|
        ensures after.pushes[k].notification in ns
        ensures after.pushes[k].notification.recipient in live.emitters
        ensures after.pushes[k].emitter == live.emitters[after.pushes[k].notification.recipient]
      {
        if k < |mid.pushes| {
          assert after.pushes[k] == mid.pushes[k];
          assert mid.pushes[k].notification in front;
        }
      }
    }
  }

  /** No recipient appears twice in `ns`. */
  predicate RecipientsDistinct(ns: seq<Notification>) {
    forall i, j :: 0 <= i < j < |ns| ==> ns[i].recipient != ns[j].recipient
  }

  /** Delivery reaches every connected recipient: when each recipient is named
      once, a recipient who had an emitter before the fan-out and whose send
      over it succeeds receives its notification over that emitter. */
  lemma {:induction false} DeliverReaches(live: Live, ns: seq<Notification>, sendOk: (nat, int) -> bool, k: int)
    requires RecipientsDistinct(ns) && 0 <= k < |ns|
    requires ns[k].recipient in live.emitters && sendOk(live.emitters[ns[k].recipient], ns[k].id)
    ensures Push(live.emitters[ns[k].recipient], ns[k]) in Deliver(live, ns, sendOk).pushes
  {
    var front := ns[..|ns| - 1];
    var n := ns[|ns| - 1];
    var mid := Deliver(live, front, sendOk);
    var after := SendTo(mid, n, sendOk);
    assert after == Deliver(live, ns, sendOk);
    assert mid.pushes <= after.pushes;
    if k == |ns| - 1 {
      DeliverSpec(live, front, sendOk);
      var u := n.recipient;
      assert after.pushes == mid.pushes + [Push(live.emitters[u], n)];
    } else {
      assert ns[k] == front[k];
      DeliverReaches(live, front, sendOk, k);
    }
  }

  /** With nobody connected, delivery changes nothing: the rows stay in the
      table only. */
  lemma {:induction false} DeliverOffline(live: Live, ns: seq<Notification>, sendOk: (nat, int) -> bool)
    requires forall k :: 0 <= k < |ns| ==> ns[k].recipient !in live.emitters
    ensures Deliver(live, ns, sendOk) == live
  {
    if ns != [] {
      DeliverOffline(live, ns[..|ns| - 1], sendOk);
    }
  }

  // ---------------------------------------------------------------- subscriptions

  /** subscribe: the new emitter is stored under the username, replacing any
      earlier entry without closing it; when the connect message cannot be
      sent the entry is removed again (the emitter is still handed back). */
  function Subscribed(live: Live, username: string, emitter: nat, connectOk: bool): Live {
    var stored := live.(emitters := live.emitters[username := emitter]);
    if connectOk then stored else stored.(emitters := stored.emitters - {username})
  }

  /** The completion and timeout callbacks of an emitter: they remove whatever
      entry the username has, as they captured only the username. */
  function Disconnected(live: Live, username: string): Live {
    live.(emitters := live.emitters - {username})
  }

  /** After subscribing, the user is reachable over the new emitter exactly
      when the connect message went out; nobody else's entry and no push
      changes. */
  lemma SubscribedSpec(live: Live, username: string, emitter: nat, connectOk: bool)
    ensures var r := Subscribed(live, username, emitter, connectOk);
            && (username in r.emitters <==> connectOk)
            && (connectOk ==> r.emitters[username] == emitter)
            && r.pushes == live.pushes
            && forall u :: u != username ==> (u in r.emitters <==> u in live.emitters)
                                             && (u in live.emitters ==> r.emitters[u] == live.emitters[u])
  {
  }

  /** A completion touches only the user's entry and no push. */
  lemma DisconnectedSpec(live: Live, username: string)
    ensures username !in Disconnected(live, username).emitters
    ensures Disconnected(live, username).pushes == live.pushes
    ensures forall u :: u != username ==> (u in Disconnected(live, username).emitters <==> u in live.emitters)
  {
  }

  /** Re-subscribing leaves the old emitter open; when it later completes or
      times out, its callback evicts the newer entry, and the user is no
      longer reachable although the newer emitter is still open. */
  lemma StaleCallbackEvictsNewer(live: Live, username: string, first: nat, second: nat)
    requires first != second
    ensures var twice := Subscribed(Subscribed(live, username, first, true), username, second, true);
            && twice.emitters[username] == second
            && username !in Disconnected(twice, username).emitters
  {
  }
}
