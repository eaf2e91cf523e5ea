/** The audit trail of risk-state changes: one immutable row per published
    state-change event, and the newest-first per-senior listing. */
module StateHistory {
  import opened Domain
  import opened Ordering

  /** A SeniorStateHistory row. `changedAt` is the creation timestamp, set when
      the row is built and never updated; there are no mutators. */
  datatype SeniorStateHistory = SeniorStateHistory(
    id: int,
    seniorId: int,
    previousState: Option<Risk>,
    newState: Risk,
    reason: string,
    changedAt: int)

  /** The row the history listener builds from an event. */
  function FromEvent(id: int, e: Event, changedAt: int): SeniorStateHistory {
    SeniorStateHistory(id, e.seniorId, e.previousState, e.newState, e.reason, changedAt)
  }

  /** The event a row records. */
  function EventOf(h: SeniorStateHistory): Event {
    SeniorStateChangedEvent(h.seniorId, h.previousState, h.newState, h.reason)
  }

  /** A row records its event verbatim, including a null previous state:
      reading the event back from the row gives the event that was published. */
  lemma FromEventRoundTrip(id: int, e: Event, changedAt: int)
    ensures EventOf(FromEvent(id, e, changedAt)) == e
    ensures FromEvent(id, e, changedAt).id == id && FromEvent(id, e, changedAt).changedAt == changedAt
  {
  }

  /** Newer (or equally new) rows come first. */
  function NewerFirst(a: SeniorStateHistory, b: SeniorStateHistory): bool {
    a.changedAt >= b.changedAt
  }

  predicate OfSenior(seniorId: int, h: SeniorStateHistory) {
    h.seniorId == seniorId
  }

  /** findBySeniorIdOrderByChangedAtDesc. Rows with equal timestamps come in an
      unspecified order. */
  function HistoryOf(rows: seq<SeniorStateHistory>, seniorId: int): seq<SeniorStateHistory> {
    Sort(Filter(rows, h => OfSenior(seniorId, h)), NewerFirst)
  }

  /** The listing holds exactly the senior's rows, each as often as stored, newest first. */
  lemma HistoryOfSpec(rows: seq<SeniorStateHistory>, seniorId: int)
    ensures forall h :: h in HistoryOf(rows, seniorId) ==> h.seniorId == seniorId && h in rows
    ensures forall i :: 0 <= i < |rows| && rows[i].seniorId == seniorId ==> rows[i] in HistoryOf(rows, seniorId)
    ensures multiset(HistoryOf(rows, seniorId)) == multiset(Filter(rows, h => OfSenior(seniorId, h)))
    ensures forall i, j :: 0 <= i < j < |HistoryOf(rows, seniorId)| ==>
              HistoryOf(rows, seniorId)[i].changedAt >= HistoryOf(rows, seniorId)[j].changedAt
  {
    var f := Filter(rows, h => OfSenior(seniorId, h));
    FilterMultiset(rows, h => OfSenior(seniorId, h));
    var r := HistoryOf(rows, seniorId);
    SortSorted(f, NewerFirst);
    forall h | h in r ensures h.seniorId == seniorId && h in rows {
      assert h in multiset(f);
      assert h in multiset(rows);
      var k :| 0 <= k < |f| && f[k] == h;
    }
    forall i | 0 <= i < |rows| && rows[i].seniorId == seniorId ensures rows[i] in r {
      assert multiset(f)[rows[i]] == multiset(rows)[rows[i]];
      assert rows[i] in multiset(rows);
      assert rows[i] in multiset(r);
    }
  }

  /** Appending a row of one senior leaves every other senior's listing unchanged. */
  lemma HistoryOfOtherUnchanged(rows: seq<SeniorStateHistory>, h: SeniorStateHistory, seniorId: int)
    requires h.seniorId != seniorId
    ensures HistoryOf(rows + [h], seniorId) == HistoryOf(rows, seniorId)
  {
    FilterAppend(rows, [h], x => OfSenior(seniorId, x));
    assert Filter([h], x => OfSenior(seniorId, x)) == [];
    assert Filter(rows, x => OfSenior(seniorId, x)) + [] == Filter(rows, x => OfSenior(seniorId, x));
  }
}
