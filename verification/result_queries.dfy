/** The read queries over stored analysis results: the derived and JPQL
    queries of the result repository and the two QueryDSL queries of its custom
    implementation (urgent list and filtered, paged search). Only the fields a
    result never changes are consulted, so these read no heap. Inner joins
    with the senior and doll tables drop results whose senior or doll row is gone. */
module ResultQueries {
  import opened Domain
  import opened Text
  import opened Ordering
  import opened Seniors
  import opened Analysis

  /** Newer (or equally new) results first: ORDER BY timestamp DESC. */
  function NewerFirst(a: OverallResult, b: OverallResult): bool {
    a.timestamp >= b.timestamp
  }

  lemma NewerFirstTotal(s: seq<OverallResult>)
    ensures TotalPreorderOn(Elems(s), NewerFirst)
  {
    forall a, b | a in Elems(s) && b in Elems(s) ensures NewerFirst(a, b) || NewerFirst(b, a) {
    }
  }

  predicate OfSenior(seniorId: int, r: OverallResult) {
    r.seniorId == seniorId
  }

  /** findTop5BySeniorIdOrderByTimestampDesc. */
  function Top5(results: seq<OverallResult>, seniorId: int): seq<OverallResult> {
    Take(Sort(Filter(results, (r: OverallResult) => OfSenior(seniorId, r)), NewerFirst), 5)
  }

  /** At most five results, all of that senior, newest first. */
  lemma Top5Spec(results: seq<OverallResult>, seniorId: int)
    ensures |Top5(results, seniorId)| == Min(5, |Filter(results, (r: OverallResult) => OfSenior(seniorId, r))|)
    ensures forall r :: r in Top5(results, seniorId) ==> r.seniorId == seniorId && r in results
    ensures forall i, j :: 0 <= i < j < |Top5(results, seniorId)| ==>
              Top5(results, seniorId)[i].timestamp >= Top5(results, seniorId)[j].timestamp
  {
    var f := Filter(results, (r: OverallResult) => OfSenior(seniorId, r));
    FilterMultiset(results, (r: OverallResult) => OfSenior(seniorId, r));
    var s := Sort(f, NewerFirst);
    var t := Top5(results, seniorId);
    NewerFirstTotal(f);
    SortSorted(f, NewerFirst);
    assert |s| == |multiset(s)| == |multiset(f)| == |f|;
    forall r | r in t ensures r.seniorId == seniorId && r in results {
      assert r in s;
      assert r in multiset(f);
      assert r in multiset(results);
      var k :| 0 <= k < |f| && f[k] == r;
    }
  }

  /** None of the senior's results left out is newer than one returned. */
  lemma Top5KeepsNewest(results: seq<OverallResult>, seniorId: int, r: OverallResult, o: OverallResult)
    requires r in Top5(results, seniorId) && o in results && o.seniorId == seniorId
    requires o !in Top5(results, seniorId)
    ensures r.timestamp >= o.timestamp
  {
    var f: seq<OverallResult> := Filter(results, (x: OverallResult) => OfSenior(seniorId, x));
    FilterMultiset(results, (x: OverallResult) => OfSenior(seniorId, x));
    var s := Sort(f, NewerFirst);
    var t := Top5(results, seniorId);
    NewerFirstTotal(f);
    SortSorted(f, NewerFirst);
    var i :| 0 <= i < |t| && t[i] == r;
    var k :| 0 <= k < |results| && results[k] == o;
    assert multiset(f)[o] == multiset(results)[o];
    assert o in multiset(results);
    assert o in multiset(s);
    var j :| 0 <= j < |s| && s[j] == o;
    assert j >= |t|;
    assert s[i] == r;
  }

  /** existsBySeniorIdAndTimestampAfter: the number of that senior's strictly
      newer results is not zero. */
  function ExistsAfter(results: seq<OverallResult>, seniorId: int, timestamp: int): bool {
    |Filter(results, (r: OverallResult) => r.seniorId == seniorId && r.timestamp > timestamp)| > 0
  }

  /** It holds exactly when some result of that senior is strictly newer. */
  lemma ExistsAfterSpec(results: seq<OverallResult>, seniorId: int, timestamp: int)
    ensures ExistsAfter(results, seniorId, timestamp) <==>
              exists i :: 0 <= i < |results| && results[i].seniorId == seniorId && results[i].timestamp > timestamp
  {
    var f := Filter(results, (r: OverallResult) => r.seniorId == seniorId && r.timestamp > timestamp);
    FilterMultiset(results, (r: OverallResult) => r.seniorId == seniorId && r.timestamp > timestamp);
    if |f| > 0 {
      assert f[0] in multiset(f);
      assert f[0] in multiset(results);
      var k :| 0 <= k < |results| && results[k] == f[0];
    }
    if exists i :: 0 <= i < |results| && results[i].seniorId == seniorId && results[i].timestamp > timestamp {
      var i :| 0 <= i < |results| && results[i].seniorId == seniorId && results[i].timestamp > timestamp;
      assert results[i] in multiset(results);
      assert multiset(f)[results[i]] == multiset(results)[results[i]];
      assert |f| > 0;
    }
  }

  /** A result whose timestamp is the maximum over its senior's results. */
  predicate IsLatest(results: seq<OverallResult>, r: OverallResult) {
    forall o :: o in results && o.seniorId == r.seniorId ==> o.timestamp <= r.timestamp
  }

  /** Two different results of one senior that both carry its newest timestamp. */
  predicate TiedNewest(results: seq<OverallResult>, a: OverallResult, b: OverallResult) {
    && a in results && b in results && a != b
    && a.seniorId == b.seniorId && a.timestamp == b.timestamp
    && IsLatest(results, a)
  }

  /** findLatestOverallResultForEachSenior, in table order (the query has no ORDER BY). */
  function LatestPerSenior(results: seq<OverallResult>): seq<OverallResult> {
    Filter(results, (r: OverallResult) => IsLatest(results, r))
  }

  /** Every row returned is one of its senior's newest results. */
  lemma LatestPerSeniorSound(results: seq<OverallResult>)
    ensures forall r :: r in LatestPerSenior(results) ==> r in results && IsLatest(results, r)
  {
    var l := LatestPerSenior(results);
    FilterMultiset(results, (r: OverallResult) => IsLatest(results, r));
    forall r | r in l ensures r in results && IsLatest(results, r) {
      var k :| 0 <= k < |l| && l[k] == r;
      assert r in multiset(l);
      assert r in multiset(results);
    }
  }

  /** Every senior with a result has a row. */
  lemma LatestPerSeniorCovers(results: seq<OverallResult>, i: int)
    requires 0 <= i < |results|
    ensures exists r :: r in LatestPerSenior(results) && r.seniorId == results[i].seniorId
  {
    var l := LatestPerSenior(results);
    FilterMultiset(results, (r: OverallResult) => IsLatest(results, r));
    var m := NewestAbove(results, results[i].seniorId, i, results[i].timestamp);
    assert results[m] in multiset(results);
    assert multiset(l)[results[m]] == multiset(results)[results[m]];
    assert results[m] in multiset(l);
  }

  /** A newest result is returned, and so is every result of the same senior
      with the same timestamp: a tie yields several rows for one senior. */
  lemma LatestPerSeniorKeepsTies(results: seq<OverallResult>, i: int, j: int)
    requires 0 <= i < |results| && 0 <= j < |results| && IsLatest(results, results[i])
    requires results[j].seniorId == results[i].seniorId && results[j].timestamp == results[i].timestamp
    ensures results[i] in LatestPerSenior(results) && results[j] in LatestPerSenior(results)
  {
    var l := LatestPerSenior(results);
    FilterMultiset(results, (r: OverallResult) => IsLatest(results, r));
    assert IsLatest(results, results[j]);
    assert results[i] in multiset(results) && results[j] in multiset(results);
    assert multiset(l)[results[i]] == multiset(results)[results[i]];
    assert multiset(l)[results[j]] == multiset(results)[results[j]];
    assert results[i] in multiset(l) && results[j] in multiset(l);
  }

  /** Climbs to a newest result: the number of that senior's results strictly
      newer than the current one decreases at each step. */
  lemma {:induction false} NewestAbove(results: seq<OverallResult>, seniorId: int, k: nat, t: int) returns (m: nat)
    requires k < |results| && results[k].seniorId == seniorId && results[k].timestamp == t
    ensures m < |results| && results[m].seniorId == seniorId && IsLatest(results, results[m])
    decreases |set x | 0 <= x < |results| && results[x].seniorId == seniorId && results[x].timestamp > t|
  {
    var above := set x | 0 <= x < |results| && results[x].seniorId == seniorId && results[x].timestamp > t;
    if above == {} {
      m := k;
      forall o | o in results && o.seniorId == seniorId ensures o.timestamp <= t {
        var x :| 0 <= x < |results| && results[x] == o;
        assert x !in above;
      }
    } else {
      var x :| x in above;
      var above2 := set y | 0 <= y < |results| && results[y].seniorId == seniorId && results[y].timestamp > results[x].timestamp;
      assert above2 < above by {
        assert above2 <= above;
        assert x in above && x !in above2;
      }
      assert above == above2 + (above - above2);
      assert x in above - above2;
      assert |above - above2| >= 1;
      m := NewestAbove(results, seniorId, x, results[x].timestamp);
    }
  }

  /** findByIdWithDetails: the result with that id, provided its senior and doll rows exist. */
  function FindByIdWithDetails(results: seq<OverallResult>, seniors: map<int, Senior>, dolls: set<string>, id: int)
    : (r: Option<OverallResult>)
    ensures r.Some? ==> r.value in results && r.value.id == id && r.value.seniorId in seniors && r.value.dollId in dolls
    ensures r.None? ==> forall o :: o in results && o.id == id ==> o.seniorId !in seniors || o.dollId !in dolls
  {
    if results == [] then None
    else if results[0].id == id && results[0].seniorId in seniors && results[0].dollId in dolls then Some(results[0])
    else FindByIdWithDetails(results[1..], seniors, dolls, id)
  }

  /** The position of the row with that id, if any. */
  function PositionOf(results: seq<OverallResult>, id: int): (r: Option<nat>)
    ensures r.Some? ==> r.value < |results| && results[r.value].id == id
    ensures r.None? ==> forall o :: o in results ==> o.id != id
  {
    if results == [] then None
    else if results[0].id == id then Some(0)
    else match PositionOf(results[1..], id)
      case None => None
      case Some(k) => Some(k + 1)
  }

  /** findById (no joins). */
  function FindById(results: seq<OverallResult>, id: int): (r: Option<OverallResult>)
    ensures r.Some? ==> r.value in results && r.value.id == id
    ensures r.None? ==> forall o :: o in results ==> o.id != id
  {
    var k := PositionOf(results, id);
    if k.Some? then Some(results[k.value]) else None
  }

  // ---------------------------------------------------------------- urgent list

  /** The CASE expression: EMERGENCY 1, CRITICAL 2, DANGER 3, anything else 4. */
  function UrgencyRank(risk: Risk): int {
    match risk
    case EMERGENCY => 1
    case CRITICAL => 2
    case DANGER => 3
    case POSITIVE => 4
  }

  predicate IsUrgent(risk: Risk) {
    risk == EMERGENCY || risk == CRITICAL || risk == DANGER
  }

  /** ORDER BY rank ASC, timestamp DESC. */
  function UrgentOrder(a: OverallResult, b: OverallResult): bool {
    UrgencyRank(a.riskLabel) < UrgencyRank(b.riskLabel)
    || (UrgencyRank(a.riskLabel) == UrgencyRank(b.riskLabel) && a.timestamp >= b.timestamp)
  }

  const UrgentLimit := 10

  function UrgentCandidates(results: seq<OverallResult>, seniors: map<int, Senior>): seq<OverallResult> {
    Filter(results, (r: OverallResult) => IsUrgent(r.riskLabel) && r.seniorId in seniors)
  }

  /** findRecentUrgentResults. */
  function RecentUrgent(results: seq<OverallResult>, seniors: map<int, Senior>): seq<OverallResult> {
    Take(Sort(UrgentCandidates(results, seniors), UrgentOrder), UrgentLimit)
  }

  /** At most ten results, only DANGER, CRITICAL and EMERGENCY ones of existing
      seniors; EMERGENCY before CRITICAL before DANGER and newer first within a
      label; and any candidate left out ranks after every one returned. */
  lemma RecentUrgentSpec(results: seq<OverallResult>, seniors: map<int, Senior>)
    ensures |RecentUrgent(results, seniors)| <= UrgentLimit
    ensures |RecentUrgent(results, seniors)| == Min(UrgentLimit, |UrgentCandidates(results, seniors)|)
    ensures forall r :: r in RecentUrgent(results, seniors) ==>
              r in results && r.riskLabel != POSITIVE && r.seniorId in seniors
    ensures forall i, j :: 0 <= i < j < |RecentUrgent(results, seniors)| ==>
              UrgentOrder(RecentUrgent(results, seniors)[i], RecentUrgent(results, seniors)[j])
    ensures forall r, o ::
              (r in RecentUrgent(results, seniors) && o in UrgentCandidates(results, seniors) && o !in RecentUrgent(results, seniors))
              ==> UrgentOrder(r, o)
  {
    var c := UrgentCandidates(results, seniors);
    FilterMultiset(results, (r: OverallResult) => IsUrgent(r.riskLabel) && r.seniorId in seniors);
    var s := Sort(c, UrgentOrder);
    var t := RecentUrgent(results, seniors);
    SortSorted(c, UrgentOrder);
    assert |s| == |multiset(s)| == |multiset(c)| == |c|;
    forall r | r in t ensures r in results && r.riskLabel != POSITIVE && r.seniorId in seniors {
      assert r in s;
      assert r in multiset(c);
      assert r in multiset(results);
      var k :| 0 <= k < |c| && c[k] == r;
    }
    forall r, o | r in t && o in c && o !in t ensures UrgentOrder(r, o) {
      assert o in multiset(c);
      assert o in multiset(s);
      TakeLeavesLater(s, UrgentLimit, UrgentOrder, r, o);
    }
  }

  // ---------------------------------------------------------------- search

  /** Units of the timestamps: nanoseconds. */
  const NanosPerDay: int := 86_400_000_000_000

  /** The day a timestamp falls on. */
  function DayOf(t: int): int {
    t / NanosPerDay
  }

  /** timestamp BETWEEN startDate 00:00 AND endDate 23:59:59.999999999. */
  predicate InDateRange(t: int, startDay: int, endDay: int) {
    startDay * NanosPerDay <= t <= endDay * NanosPerDay + (NanosPerDay - 1)
  }

  /** The range covers whole days, both ends included. */
  lemma InDateRangeWholeDays(t: int, startDay: int, endDay: int)
    ensures InDateRange(t, startDay, endDay) <==> startDay <= DayOf(t) <= endDay
  {
    var d := DayOf(t);
    assert d * NanosPerDay <= t < d * NanosPerDay + NanosPerDay;
  }

  /** OverallResultSearchCondition. Age groups depend on the clock and are not
      part of this model. Dates are day numbers. */
  datatype Criteria = Criteria(
    seniorId: Option<int>,
    name: Option<string>,
    sex: Option<string>,
    gu: Option<string>,
    dong: Option<string>,
    dollId: Option<string>,
    riskLabel: Option<Risk>,
    startDate: Option<int>,
    endDate: Option<int>)

  /** hasText on a possibly-null string. */
  predicate Texted(s: Option<string>) {
    s.Some? && HasText(s.value)
  }

  /** The WHERE clause of both the page query and the count query: each helper
      contributes a condition only when its criterion is set. A null column never
      equals or contains anything. */
  predicate Matches(c: Criteria, r: OverallResult, s: Senior) {
    && (c.seniorId.Some? ==> s.id == c.seniorId.value)
    && (Texted(c.name) ==> s.profile.name.Some? && Contains(s.profile.name.value, c.name.value))
    && (c.sex.Some? ==> s.profile.sex == c.sex)
    && (c.gu.Some? ==> s.profile.address.gu == c.gu)
    && (c.dong.Some? ==> s.profile.address.dong == c.dong)
    && (Texted(c.dollId) ==> r.dollId == c.dollId.value)
    && (c.riskLabel.Some? ==> r.riskLabel == c.riskLabel.value)
    && (c.startDate.Some? && c.endDate.Some? ==> InDateRange(r.timestamp, c.startDate.value, c.endDate.value))
  }

  /** A condition with every criterion null or blank. */
  predicate Unconstrained(c: Criteria) {
    c.seniorId.None? && !Texted(c.name) && c.sex.None? && c.gu.None? && c.dong.None?
    && !Texted(c.dollId) && c.riskLabel.None? && (c.startDate.None? || c.endDate.None?)
  }

  /** The rows of the joined, filtered query before ordering and paging. */
  function Matching(results: seq<OverallResult>, seniors: map<int, Senior>, dolls: set<string>, c: Criteria)
    : seq<OverallResult>
  {
    Filter(results, (r: OverallResult) => r.seniorId in seniors && r.dollId in dolls && Matches(c, r, seniors[r.seniorId]))
  }

  datatype Page = Page(content: seq<OverallResult>, total: int)

  /** searchOverallResults: newest first, the window at `offset` of `pageSize`
      rows, and the total number of matches counted with the same condition. */
  function Search(results: seq<OverallResult>, seniors: map<int, Senior>, dolls: set<string>,
                  c: Criteria, offset: nat, pageSize: nat): Page
  {
    var m := Matching(results, seniors, dolls, c);
    Page(Window(Sort(m, NewerFirst), offset, pageSize), |m|)
  }

  /** Every null or blank criterion imposes no constraint: an unconstrained
      search matches every result whose senior and doll exist. */
  lemma UnconstrainedMatchesAll(results: seq<OverallResult>, seniors: map<int, Senior>, dolls: set<string>, c: Criteria)
    requires Unconstrained(c)
    ensures Matching(results, seniors, dolls, c) == Filter(results, (r: OverallResult) => r.seniorId in seniors && r.dollId in dolls)
  {
    FilterSame(results, (r: OverallResult) => r.seniorId in seniors && r.dollId in dolls && Matches(c, r, seniors[r.seniorId]),
               (r: OverallResult) => r.seniorId in seniors && r.dollId in dolls);
  }

  lemma {:induction false} FilterSame<T>(s: seq<T>, p: T -> bool, q: T -> bool)
    requires forall i :: 0 <= i < |s| ==> p(s[i]) == q(s[i])
    ensures Filter(s, p) == Filter(s, q)
  {
    if s != [] {
      FilterSame(s[1..], p, q);
    }
  }

  /** The page holds at most `pageSize` rows taken from position `offset` of
      the ordered matches; the total counts every match, so it never falls
      below what the page shows plus what precedes it. */
  lemma SearchSpec(results: seq<OverallResult>, seniors: map<int, Senior>, dolls: set<string>,
                   c: Criteria, offset: nat, pageSize: nat)
    ensures |Search(results, seniors, dolls, c, offset, pageSize).content| <= pageSize
    ensures Search(results, seniors, dolls, c, offset, pageSize).total == |Matching(results, seniors, dolls, c)|
    ensures offset < Search(results, seniors, dolls, c, offset, pageSize).total ==>
              |Search(results, seniors, dolls, c, offset, pageSize).content|
              == Min(pageSize, Search(results, seniors, dolls, c, offset, pageSize).total - offset)
    ensures offset >= Search(results, seniors, dolls, c, offset, pageSize).total ==>
              Search(results, seniors, dolls, c, offset, pageSize).content == []
  {
    var m := Matching(results, seniors, dolls, c);
    var s := Sort(m, NewerFirst);
    assert |s| == |multiset(s)| == |multiset(m)| == |m|;
  }

  /** Every row on the page is a stored result of an existing senior, with a
      registered doll, that meets the criteria. */
  lemma SearchContent(results: seq<OverallResult>, seniors: map<int, Senior>, dolls: set<string>,
                      c: Criteria, offset: nat, pageSize: nat)
    ensures forall r :: r in Search(results, seniors, dolls, c, offset, pageSize).content ==>
              r in results && r.seniorId in seniors && r.dollId in dolls && Matches(c, r, seniors[r.seniorId])
  {
    var m := Matching(results, seniors, dolls, c);
    FilterMultiset(results, (r: OverallResult) => r.seniorId in seniors && r.dollId in dolls && Matches(c, r, seniors[r.seniorId]));
    var s := Sort(m, NewerFirst);
    var p := Search(results, seniors, dolls, c, offset, pageSize);
    forall r | r in p.content
      ensures r in results && r.seniorId in seniors && r.dollId in dolls && Matches(c, r, seniors[r.seniorId])
    {
      assert r in s;
      assert r in multiset(m);
      assert r in multiset(results);
      var k :| 0 <= k < |m| && m[k] == r;
    }
  }

  /** The page is newest first. */
  lemma SearchNewestFirst(results: seq<OverallResult>, seniors: map<int, Senior>, dolls: set<string>,
                          c: Criteria, offset: nat, pageSize: nat)
    ensures forall i, j :: 0 <= i < j < |Search(results, seniors, dolls, c, offset, pageSize).content| ==>
              Search(results, seniors, dolls, c, offset, pageSize).content[i].timestamp
              >= Search(results, seniors, dolls, c, offset, pageSize).content[j].timestamp
  {
    var m := Matching(results, seniors, dolls, c);
    var s := Sort(m, NewerFirst);
    var p := Search(results, seniors, dolls, c, offset, pageSize);
    NewerFirstTotal(m);
    SortSorted(m, NewerFirst);
    if offset < |s| {
      forall i, j | 0 <= i < j < |p.content| ensures p.content[i].timestamp >= p.content[j].timestamp {
        assert p.content[i] == s[offset + i] && p.content[j] == s[offset + j];
      }
    }
  }
}
