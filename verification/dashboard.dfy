/** The dashboard: seniors counted per risk state, and every senior listed in
    the bucket of its state together with its last state change and the
    projection of its latest analysis result. */
module Dashboard {
  import opened Domain
  import opened Text
  import opened Ordering
  import opened Seniors
  import opened Analysis
  import ResultQueries

  // ---------------------------------------------------------------- Collectors.toMap

  /** The collected map, or the first repeated key with the value already
      stored under it and the value that met it. */
  datatype Collected<K, V> = Collected(m: map<K, V>) | DuplicateKey(key: K, existing: V, incoming: V)

  predicate DistinctKeys<K(==), V>(rows: seq<(K, V)>) {
    forall i, j :: 0 <= i < j < |rows| ==> rows[i].0 != rows[j].0
  }

  /** Collectors.toMap without a merge function: the first repeated key (in
      encounter order of the second occurrence) makes it throw, naming the
      key's first value and the repeated one. */
  function ToMap<K(==), V>(rows: seq<(K, V)>): (r: Collected<K, V>)
    ensures r.Collected? <==> DistinctKeys(rows)
    ensures r.Collected? ==> (r.m.Keys == (set i | 0 <= i < |rows| :: rows[i].0)
                              && forall i :: 0 <= i < |rows| ==> r.m[rows[i].0] == rows[i].1)
    ensures r.DuplicateKey? ==> exists i, j :: 0 <= i < j < |rows| && rows[i].0 == rows[j].0 == r.key
                                   && rows[i].1 == r.existing && rows[j].1 == r.incoming
    decreases |rows|
  {
    if rows == [] then Collected(map[])
    else
      var last := rows[|rows| - 1];
      var front := rows[..|rows| - 1];
      match ToMap(front)
      case DuplicateKey(k, u, v) =>
        assert forall i :: 0 <= i < |front| ==> rows[i] == front[i];
        DuplicateKey(k, u, v)
      case Collected(m) =>
        if last.0 in m then
          var i :| 0 <= i < |front| && front[i].0 == last.0;
          assert rows[..|front|] == front;
          DuplicateKey(last.0, m[last.0], last.1)
        else
          assert forall i :: 0 <= i < |front| ==> rows[i] == front[i];
          Collected(m[last.0 := last.1])
  }

  /** Map.getOrDefault. */
  function GetOrDefault<K, V>(m: map<K, V>, k: K, d: V): V {
    if k in m then m[k] else d
  }

  // ---------------------------------------------------------------- counts

  predicate InState(r: Risk, s: Senior) {
    s.state == r
  }

  /** Number of seniors in state `r`. */
  function CountOf(all: seq<Senior>, r: Risk): nat {
    |Filter(all, (s: Senior) => InState(r, s))|
  }

  /** No state is listed twice. */
  predicate NoRepeats(rs: seq<Risk>) {
    rs == [] || (rs[0] !in rs[1..] && NoRepeats(rs[1..]))
  }

  /** The group-by rows for the states in `rs`, given each state's count: one
      (state, count) row for each state of `rs` with a non-zero count, in the
      order of `rs`. */
  function RowsFor(count: Risk -> nat, rs: seq<Risk>): (rows: seq<(Risk, int)>)
    ensures forall i :: 0 <= i < |rows| ==> rows[i].0 in rs && rows[i].1 == count(rows[i].0) > 0
    ensures NoRepeats(rs) ==> DistinctKeys(rows)
  {
    if rs == [] then []
    else
      var rest := RowsFor(count, rs[1..]);
      assert forall i :: 0 <= i < |rest| ==> rest[i].0 in rs;
      if count(rs[0]) == 0 then rest
      else
        var rows := [(rs[0], count(rs[0]) as int)] + rest;
        assert forall i :: 1 <= i < |rows| ==> rows[i] == rest[i - 1];
        rows
  }

  /** Every state of `rs` with a non-zero count has its row. */
  lemma {:induction false} RowsForCovers(count: Risk -> nat, rs: seq<Risk>, r: Risk)
    requires r in rs && count(r) > 0
    ensures exists i :: 0 <= i < |RowsFor(count, rs)| && RowsFor(count, rs)[i].0 == r
  {
    var rows := RowsFor(count, rs);
    var rest := RowsFor(count, rs[1..]);
    if r == rs[0] {
      assert rows == [(r, count(r) as int)] + rest;
      assert rows[0].0 == r;
    } else {
      assert r in rs[1..];
      RowsForCovers(count, rs[1..], r);
      var k :| 0 <= k < |rest| && rest[k].0 == r;
      if count(rs[0]) == 0 {
        assert rows == rest;
      } else {
        assert rows == [(rs[0], count(rs[0]) as int)] + rest;
        assert rows[k + 1] == rest[k];
      }
    }
  }

  /** countSeniorsByState: one (state, count) row for each state some senior is in. */
  function CountRows(all: seq<Senior>): (rows: seq<(Risk, int)>)
    ensures DistinctKeys(rows)
    ensures forall i :: 0 <= i < |rows| ==> rows[i].1 == CountOf(all, rows[i].0) > 0
    ensures forall r: Risk :: CountOf(all, r) > 0 ==> exists i :: 0 <= i < |rows| && rows[i].0 == r
  {
    var count := (r: Risk) => CountOf(all, r);
    forall r: Risk | CountOf(all, r) > 0
      ensures exists i :: 0 <= i < |RowsFor(count, AllRisks)| && RowsFor(count, AllRisks)[i].0 == r
    {
      AllRisksListsEachOnce(r);
      RowsForCovers(count, AllRisks, r);
    }
    assert NoRepeats(AllRisks);
    RowsFor(count, AllRisks)
  }

  datatype StateCounts = StateCounts(total: int, positive: int, danger: int, critical: int, emergency: int)

  /** The count for one state from the collected rows, 0 when the state has no row. */
  function CountFor(m: map<Risk, int>, r: Risk): int {
    GetOrDefault(m, r, 0)
  }

  /** The state-count part of the dashboard. */
  function Counts(all: seq<Senior>): StateCounts {
    var c := ToMap(CountRows(all));
    StateCounts(|all|, CountFor(c.m, POSITIVE), CountFor(c.m, DANGER), CountFor(c.m, CRITICAL), CountFor(c.m, EMERGENCY))
  }

  /** Each per-state count is the number of seniors in that state (0 when none
      is), and the four counts add up to the total. */
  lemma CountsSpec(all: seq<Senior>)
    ensures Counts(all).positive == CountOf(all, POSITIVE)
    ensures Counts(all).danger == CountOf(all, DANGER)
    ensures Counts(all).critical == CountOf(all, CRITICAL)
    ensures Counts(all).emergency == CountOf(all, EMERGENCY)
    ensures Counts(all).total == Counts(all).positive + Counts(all).danger + Counts(all).critical + Counts(all).emergency
  {
    var rows := CountRows(all);
    var m := ToMap(rows).m;
    forall r: Risk ensures CountFor(m, r) == CountOf(all, r) {
      if CountOf(all, r) > 0 {
        var i :| 0 <= i < |rows| && rows[i].0 == r;
      }
    }
    CountsAddUp(all);
  }

  /** Every senior is in exactly one of the four states. */
  lemma {:induction false} CountsAddUp(all: seq<Senior>)
    ensures |all| == CountOf(all, POSITIVE) + CountOf(all, DANGER) + CountOf(all, CRITICAL) + CountOf(all, EMERGENCY)
  {
    if all != [] {
      CountsAddUp(all[1..]);
    }
  }

  // ---------------------------------------------------------------- per-senior projection

  /** DashboardSeniorDto without the age, which depends on the clock. */
  datatype DashboardSeniorDto = DashboardSeniorDto(
    seniorId: int,
    name: Option<string>,
    sex: Option<string>,
    address: Option<string>,
    latitude: Option<real>,
    longitude: Option<real>,
    lastStateChangedAt: Option<int>,
    latestOverallResultId: Option<int>,
    summary: Option<string>,
    treatmentPlan: Option<string>,
    preResolvedLabel: Option<Risk>,
    resolvedLabel: Option<Risk>,
    isResolved: bool)

  function Footprint(latest: Option<OverallResult>): set<object> {
    if latest.Some? then {latest.value} else {}
  }

  /** DashboardSeniorDto.from: the senior's fields, the passed-through last change
      time, and the latest result's fields, each null when there is no result. */
  function ToDto(s: Senior, lastChanged: Option<int>, latest: Option<OverallResult>): (d: DashboardSeniorDto)
    reads Footprint(latest)
  {
    var o := latest;
    DashboardSeniorDto(
      s.id, s.profile.name, s.profile.sex, s.profile.address.address,
      s.profile.address.latitude, s.profile.address.longitude, lastChanged,
      if o.Some? then Some(o.value.id) else None,
      if o.Some? then Some(o.value.summary) else None,
      if o.Some? then Some(o.value.treatmentPlan) else None,
      if o.Some? then Some(o.value.riskLabel) else None,
      if o.Some? then o.value.resolvedLabel else None,
      o.Some? && o.value.isResolved)
  }

  /** The entry copies the senior's id, name, sex, address and coordinates and
      the last change time. Without a latest result every result field is null
      and the senior is not resolved; with one, its id, summary, plan, raw label,
      resolved label and flag are copied, so a projected result keeps the rule
      that a resolved label is present exactly when the result is resolved. */
  lemma ToDtoSpec(s: Senior, lastChanged: Option<int>, latest: Option<OverallResult>)
    ensures var d := ToDto(s, lastChanged, latest);
      && d.seniorId == s.id && d.name == s.profile.name && d.sex == s.profile.sex
      && d.address == s.profile.address.address
      && d.latitude == s.profile.address.latitude && d.longitude == s.profile.address.longitude
      && d.lastStateChangedAt == lastChanged
    ensures latest.None? ==>
      var d := ToDto(s, lastChanged, latest);
      d.latestOverallResultId.None? && d.summary.None? && d.treatmentPlan.None?
      && d.preResolvedLabel.None? && d.resolvedLabel.None? && !d.isResolved
    ensures latest.Some? ==>
      var d := ToDto(s, lastChanged, latest);
      && d.latestOverallResultId == Some(latest.value.id)
      && d.summary == Some(latest.value.summary) && d.treatmentPlan == Some(latest.value.treatmentPlan)
      && d.preResolvedLabel == Some(latest.value.riskLabel)
      && d.resolvedLabel == latest.value.resolvedLabel && d.isResolved == latest.value.isResolved
    ensures latest.Some? && latest.value.Valid() ==>
      var d := ToDto(s, lastChanged, latest);
      d.isResolved <==> d.resolvedLabel.Some?
  {
  }

  /** The rows seniors are bucketed by: the dashboard entries of the seniors in
      state `r`, in the order of `all`. */
  function Bucket(all: seq<Senior>, r: Risk, lastChanged: map<int, int>, latest: map<int, OverallResult>)
    : seq<DashboardSeniorDto>
    reads latest.Values
  {
    if all == [] then []
    else
      var s := all[|all| - 1];
      var o := if s.id in latest then Some(latest[s.id]) else None;
      Bucket(all[..|all| - 1], r, lastChanged, latest)
      + (if s.state == r then [ToDto(s, if s.id in lastChanged then Some(lastChanged[s.id]) else None, o)] else [])
  }

  /** A bucket has one entry per senior in that state. */
  lemma {:induction false} BucketSize(all: seq<Senior>, r: Risk, lastChanged: map<int, int>, latest: map<int, OverallResult>)
    ensures |Bucket(all, r, lastChanged, latest)| == CountOf(all, r)
  {
    if all != [] {
      var front := all[..|all| - 1];
      var s := all[|all| - 1];
      BucketSize(front, r, lastChanged, latest);
      assert all == front + [s];
      FilterAppend(front, [s], (x: Senior) => InState(r, x));
    }
  }

  /** Every entry of a bucket names a senior in that state. */
  lemma {:induction false} BucketMembers(all: seq<Senior>, r: Risk, lastChanged: map<int, int>, latest: map<int, OverallResult>)
    ensures forall d :: d in Bucket(all, r, lastChanged, latest) ==>
              exists i :: 0 <= i < |all| && all[i].id == d.seniorId && all[i].state == r
  {
    if all != [] {
      var front := all[..|all| - 1];
      BucketMembers(front, r, lastChanged, latest);
      forall d | d in Bucket(all, r, lastChanged, latest)
        ensures exists i :: 0 <= i < |all| && all[i].id == d.seniorId && all[i].state == r
      {
        if d in Bucket(front, r, lastChanged, latest) {
          var i :| 0 <= i < |front| && front[i].id == d.seniorId && front[i].state == r;
          assert all[i] == front[i];
        } else {
          assert all[|all| - 1].id == d.seniorId;
        }
      }
    }
  }

  /** A senior's entry is in the bucket of its state. */
  lemma {:induction false} BucketContains(all: seq<Senior>, i: int, lastChanged: map<int, int>, latest: map<int, OverallResult>)
    requires 0 <= i < |all|
    ensures ToDto(all[i], if all[i].id in lastChanged then Some(lastChanged[all[i].id]) else None,
                  if all[i].id in latest then Some(latest[all[i].id]) else None)
            in Bucket(all, all[i].state, lastChanged, latest)
  {
    if i < |all| - 1 {
      BucketContains(all[..|all| - 1], i, lastChanged, latest);
    }
  }

  datatype DashboardData = DashboardData(counts: StateCounts, buckets: map<Risk, seq<DashboardSeniorDto>>)

  /** The key the latest-result map is collected by: the result's senior id. */
  function BySenior(results: seq<OverallResult>): (rows: seq<(int, OverallResult)>)
    ensures |rows| == |results|
    ensures forall i :: 0 <= i < |results| ==> rows[i] == (results[i].seniorId, results[i])
  {
    seq(|results|, i requires 0 <= i < |results| => (results[i].seniorId, results[i]))
  }

  /** A tie for a senior's newest result puts two rows of that senior into
      findLatestOverallResultForEachSenior, so collecting them by senior id
      meets a repeated key. */
  lemma LatestTieRepeatsKey(results: seq<OverallResult>, a: OverallResult, b: OverallResult)
    requires ResultQueries.TiedNewest(results, a, b)
    ensures !DistinctKeys(BySenior(ResultQueries.LatestPerSenior(results)))
  {
    var i :| 0 <= i < |results| && results[i] == a;
    var j :| 0 <= j < |results| && results[j] == b;
    ResultQueries.LatestPerSeniorKeepsTies(results, i, j);
    var l := ResultQueries.LatestPerSenior(results);
    var rows := BySenior(l);
    var p :| 0 <= p < |l| && l[p] == a;
    var q :| 0 <= q < |l| && l[q] == b;
    assert rows[p].0 == rows[q].0;
    if p < q {
      assert !DistinctKeys(rows);
    } else {
      assert q < p;
      assert !DistinctKeys(rows);
    }
  }

  /** Without such a tie, and with result ids unique, the latest rows carry
      each senior id once, so collecting them succeeds. */
  lemma LatestRowsDistinctWithoutTie(results: seq<OverallResult>)
    requires forall i, j :: 0 <= i < j < |results| ==> results[i].id != results[j].id
    requires !exists a, b :: ResultQueries.TiedNewest(results, a, b)
    ensures DistinctKeys(BySenior(ResultQueries.LatestPerSenior(results)))
  {
    var l := ResultQueries.LatestPerSenior(results);
    var rows := BySenior(l);
    ResultQueries.LatestPerSeniorSound(results);
    FilterKeepsDistinct(results, (r: OverallResult) => ResultQueries.IsLatest(results, r), (r: OverallResult) => r.id);
    forall p, q | 0 <= p < q < |l| ensures rows[p].0 != rows[q].0 {
      assert l[p] in l && l[q] in l;
      assert l[p].id != l[q].id;
      assert !ResultQueries.TiedNewest(results, l[p], l[q]);
    }
  }

  /** The IllegalStateException Collectors.toMap throws on a repeated key:
      the key, then the value already stored and the value that met it, each
      rendered by its toString (`show`). */
  function DuplicateKeyError<V>(c: Collected<int, V>, show: V -> string): Error
    requires c.DuplicateKey?
  {
    IllegalState("Duplicate key " + LongToString(c.key) + " (attempted merging values "
                 + show(c.existing) + " and " + show(c.incoming) + ")")
  }

  /** getDashboardData. `all` is findAll in repository order, `changeRows` the
      (senior id, last change time) rows of the latest-state-change query and
      `latestResults` the rows of findLatestOverallResultForEachSenior. Either
      collection failing on a repeated senior id aborts the call; `showTime` and
      `showResult` are the toString of a timestamp and of a result entity. */
  method GetDashboardData(all: seq<Senior>, changeRows: seq<(int, int)>, latestResults: seq<OverallResult>,
                          showTime: int -> string, showResult: OverallResult -> string)
    returns (r: Result<DashboardData>)
    ensures r.Ok? <==> DistinctKeys(changeRows) && DistinctKeys(BySenior(latestResults))
    ensures ToMap(changeRows).DuplicateKey? ==> r == Fail(DuplicateKeyError(ToMap(changeRows), showTime))
    ensures ToMap(changeRows).Collected? && ToMap(BySenior(latestResults)).DuplicateKey? ==>
              r == Fail(DuplicateKeyError(ToMap(BySenior(latestResults)), showResult))
    ensures r.Ok? ==> r.value.counts == Counts(all)
    ensures r.Ok? ==> (forall k: Risk :: (k in r.value.buckets
              && r.value.buckets[k] == Bucket(all, k, ToMap(changeRows).m, ToMap(BySenior(latestResults)).m)))
  {
    var counts := Counts(all);
    var changes := ToMap(changeRows);
    if changes.DuplicateKey? {
      return Fail(DuplicateKeyError(changes, showTime));
    }
    var latest := ToMap(BySenior(latestResults));
    if latest.DuplicateKey? {
      return Fail(DuplicateKeyError(latest, showResult));
    }
    var buckets := BucketByState(all, changes.m, latest.m);
    return Ok(DashboardData(counts, buckets));
  }

  /** The EnumMap of per-state lists, filled by one pass over the seniors. */
  method BucketByState(all: seq<Senior>, lastChanged: map<int, int>, latest: map<int, OverallResult>)
    returns (buckets: map<Risk, seq<DashboardSeniorDto>>)
    ensures forall k: Risk :: k in buckets && buckets[k] == Bucket(all, k, lastChanged, latest)
  {
    buckets := map[POSITIVE := [], DANGER := [], CRITICAL := [], EMERGENCY := []];
    assert all[..0] == [];
    forall k: Risk ensures k in buckets {
      AllRisksListsEachOnce(k);
    }
    for i := 0 to |all|
      invariant forall k: Risk :: k in buckets && buckets[k] == Bucket(all[..i], k, lastChanged, latest)
    {
      var s := all[i];
      var last := if s.id in lastChanged then Some(lastChanged[s.id]) else None;
      var o := if s.id in latest then Some(latest[s.id]) else None;
      var dto := ToDto(s, last, o);
      if s.state in buckets {
        buckets := buckets[s.state := buckets[s.state] + [dto]];
      }
      assert all[..i + 1][..i] == all[..i];
    }
    assert all[..|all|] == all;
  }
}
