/**
 * Matching a request against the cached rule set
 * (src/django_waf/services/rule_engine.py, `_check_allow_rules` and
 * `_check_block_rules`) against the rows it was built from.
 *
 * A table is the sequence of its rows in the order the database breaks ties
 * in; a query reads it in order of the ordering column. Whether a rule matches
 * the request at hand (user agent, address, reverse DNS) is a parameter.
 */
module RuleEvaluation {
  import opened Wrappers
  import opened Rules

  /** One rule as the cache holds it: the row without the columns matching does
      not read. */
  datatype CachedRule = CachedRule(
    id: RuleId,
    ruleType: RuleType,
    matchType: MatchType,
    pattern: string,
    order: int,
    expiresAt: Option<Time>,
    kind: Kind)

  function ToCached(r: Rule): CachedRule {
    CachedRule(r.id, r.ruleType, r.matchType, r.pattern, r.order, r.expiresAt, r.kind)
  }

  function LiveRows(rows: seq<Rule>, now: Time): seq<Rule> {
    if rows == [] then []
    else (if IsLive(rows[0], now) then [rows[0]] else []) + LiveRows(rows[1..], now)
  }

  /** Inserts before the first row of the same or a higher order, so that a sort
      built from the right keeps the table's order among equals. */
  function InsertByOrder(r: Rule, sorted: seq<Rule>): seq<Rule> {
    if sorted == [] || r.order <= sorted[0].order then [r] + sorted
    else [sorted[0]] + InsertByOrder(r, sorted[1..])
  }

  function ByOrder(rows: seq<Rule>): seq<Rule> {
    if rows == [] then [] else InsertByOrder(rows[0], ByOrder(rows[1..]))
  }

  /** The `active()` query. */
  function Active(rows: seq<Rule>, now: Time): seq<Rule> {
    ByOrder(LiveRows(rows, now))
  }

  function Cache(rows: seq<Rule>): seq<CachedRule> {
    if rows == [] then [] else [ToCached(rows[0])] + Cache(rows[1..])
  }

  /** The rule list a rebuild at `now` stores. */
  function Snapshot(rows: seq<Rule>, now: Time): seq<CachedRule> {
    Cache(Active(rows, now))
  }

  /** The first cached rule that has not expired and matches. */
  function FirstCached(cache: seq<CachedRule>, now: Time, matches: CachedRule -> bool): Option<CachedRule> {
    if cache == [] then None
    else if Unexpired(cache[0].expiresAt, now) && matches(cache[0]) then Some(cache[0])
    else FirstCached(cache[1..], now, matches)
  }

  /** The first row of a query's answer that matches; no expiry check. */
  function FirstOf(rows: seq<Rule>, matches: CachedRule -> bool): Option<Rule> {
    if rows == [] then None
    else if matches(ToCached(rows[0])) then Some(rows[0])
    else FirstOf(rows[1..], matches)
  }

  /** Direct evaluation: ask the table at `now` and take the first match. */
  function Direct(rows: seq<Rule>, now: Time, matches: CachedRule -> bool): Option<CachedRule> {
    match FirstOf(Active(rows, now), matches)
    case None => None
    case Some(r) => Some(ToCached(r))
  }

  /** The loop of `_check_allow_rules` and `_check_block_rules`. */
  method CheckRules(cache: seq<CachedRule>, now: Time, matches: CachedRule -> bool) returns (hit: Option<CachedRule>)
    ensures hit == FirstCached(cache, now, matches)
    ensures hit.Some? ==> hit.value in cache && Unexpired(hit.value.expiresAt, now) && matches(hit.value)
    ensures hit.None? ==> forall c :: c in cache && Unexpired(c.expiresAt, now) ==> !matches(c)
  {
    var i := 0;
    while i < |cache|
      invariant 0 <= i <= |cache|
      invariant FirstCached(cache, now, matches) == FirstCached(cache[i..], now, matches)
      invariant forall k :: 0 <= k < i && Unexpired(cache[k].expiresAt, now) ==> !matches(cache[k])
    {
      var rule := cache[i];
      assert cache[i..][0] == rule && cache[i..][1..] == cache[i + 1..];
      if Unexpired(rule.expiresAt, now) && matches(rule) {
        return Some(rule);
      }
      i := i + 1;
    }
    return None;
  }

  /***** The cached answer is the direct answer *****/

  /** Rows dropped from an answer between t0 and t, all of them expired at t. */
  lemma {:induction false} FilterLater(rows: seq<Rule>, t0: Time, t: Time)
    requires t0 <= t
    ensures LiveRows(LiveRows(rows, t0), t) == LiveRows(rows, t)
  {
    if rows != [] {
      FilterLater(rows[1..], t0, t);
      var rest := LiveRows(rows[1..], t0);
      if IsLive(rows[0], t0) {
        assert ([rows[0]] + rest)[1..] == rest;
      } else {
        assert [] + rest == rest;
      }
    }
  }

  ghost predicate Sorted(rows: seq<Rule>) {
    rows == [] || (Sorted(rows[1..]) && forall r :: r in rows[1..] ==> rows[0].order <= r.order)
  }

  lemma {:induction false} InsertMembers(r: Rule, sorted: seq<Rule>)
    ensures forall q :: q in InsertByOrder(r, sorted) <==> q == r || q in sorted
    ensures multiset(InsertByOrder(r, sorted)) == multiset(sorted) + multiset{r}
  {
    if sorted != [] && r.order > sorted[0].order {
      InsertMembers(r, sorted[1..]);
      assert sorted == [sorted[0]] + sorted[1..];
    }
  }

  lemma {:induction false} InsertKeepsSorted(r: Rule, sorted: seq<Rule>)
    requires Sorted(sorted)
    ensures Sorted(InsertByOrder(r, sorted))
  {
    if sorted == [] || r.order <= sorted[0].order {
      assert ([r] + sorted)[1..] == sorted;
      forall q | q in sorted ensures r.order <= q.order {
        assert sorted == [sorted[0]] + sorted[1..];
      }
    } else {
      InsertKeepsSorted(r, sorted[1..]);
      InsertMembers(r, sorted[1..]);
      var tail := InsertByOrder(r, sorted[1..]);
      assert ([sorted[0]] + tail)[1..] == tail;
    }
  }

  /** Reading a table in order is sorting it: the same rows, in order. */
  lemma {:induction false} ByOrderSorts(rows: seq<Rule>)
    ensures Sorted(ByOrder(rows)) && multiset(ByOrder(rows)) == multiset(rows)
    ensures forall r :: r in ByOrder(rows) <==> r in rows
  {
    if rows != [] {
      ByOrderSorts(rows[1..]);
      InsertKeepsSorted(rows[0], ByOrder(rows[1..]));
      InsertMembers(rows[0], ByOrder(rows[1..]));
      assert rows == [rows[0]] + rows[1..];
    }
  }

  lemma {:induction false} LiveOfInsert(r: Rule, sorted: seq<Rule>, t: Time)
    requires Sorted(sorted)
    ensures LiveRows(InsertByOrder(r, sorted), t)
         == if IsLive(r, t) then InsertByOrder(r, LiveRows(sorted, t)) else LiveRows(sorted, t)
  {
    if sorted == [] || r.order <= sorted[0].order {
      LiveCons(r, sorted, t);
      FirstLiveIsLater(r, sorted, t);
    } else {
      var first, rest := sorted[0], sorted[1..];
      LiveOfInsert(r, rest, t);
      LiveCons(first, InsertByOrder(r, rest), t);
      assert sorted == [first] + rest;
      LiveCons(first, rest, t);
      assert IsLive(first, t) ==> ([first] + LiveRows(rest, t))[1..] == LiveRows(rest, t);
    }
  }

  lemma LiveCons(first: Rule, rest: seq<Rule>, t: Time)
    ensures LiveRows([first] + rest, t) == if IsLive(first, t) then [first] + LiveRows(rest, t) else LiveRows(rest, t)
  {
    assert ([first] + rest)[1..] == rest;
  }

  lemma FirstLiveIsLater(r: Rule, sorted: seq<Rule>, t: Time)
    requires Sorted(sorted) && (sorted == [] || r.order <= sorted[0].order)
    ensures InsertByOrder(r, LiveRows(sorted, t)) == [r] + LiveRows(sorted, t)
  {
    var live := LiveRows(sorted, t);
    LiveRowsMembers(sorted, t);
    if live != [] {
      assert live[0] in sorted && sorted == [sorted[0]] + sorted[1..];
    }
  }

  lemma {:induction false} LiveRowsMembers(rows: seq<Rule>, t: Time)
    ensures forall r :: r in LiveRows(rows, t) ==> r in rows && IsLive(r, t)
    ensures forall r :: r in rows && IsLive(r, t) ==> r in LiveRows(rows, t)
  {
    if rows != [] {
      LiveRowsMembers(rows[1..], t);
    }
  }

  /** Filtering by expiry commutes with reading in order. */
  lemma {:induction false} LiveOfSort(rows: seq<Rule>, t: Time)
    ensures LiveRows(ByOrder(rows), t) == ByOrder(LiveRows(rows, t))
  {
    if rows != [] {
      LiveOfSort(rows[1..], t);
      ByOrderSorts(rows[1..]);
      LiveOfInsert(rows[0], ByOrder(rows[1..]), t);
      var rest := LiveRows(rows[1..], t);
      if IsLive(rows[0], t) {
        assert ([rows[0]] + rest)[1..] == rest;
      } else {
        assert [] + rest == rest;
      }
    }
  }

  /** Skipping the expired rules of a cached list is filtering the list. */
  lemma {:induction false} SkipIsFilter(rows: seq<Rule>, t: Time, matches: CachedRule -> bool)
    requires forall r :: r in rows ==> r.isActive
    ensures FirstCached(Cache(rows), t, matches)
         == match FirstOf(LiveRows(rows, t), matches) case None => None case Some(r) => Some(ToCached(r))
  {
    if rows != [] {
      SkipIsFilter(rows[1..], t, matches);
      assert Cache(rows)[1..] == Cache(rows[1..]);
      var rest := LiveRows(rows[1..], t);
      if IsLive(rows[0], t) {
        assert ([rows[0]] + rest)[1..] == rest;
      } else {
        assert [] + rest == rest;
      }
    }
  }

  /** The first match through a snapshot taken at t0, with the expiry check made
      at t, is the first match the table itself gives at t. */
  lemma CachedIsDirect(rows: seq<Rule>, t0: Time, t: Time, matches: CachedRule -> bool)
    requires t0 <= t
    ensures FirstCached(Snapshot(rows, t0), t, matches) == Direct(rows, t, matches)
  {
    var snap := Active(rows, t0);
    LiveRowsMembers(rows, t0);
    ByOrderSorts(LiveRows(rows, t0));
    SkipIsFilter(snap, t, matches);
    LiveOfSort(LiveRows(rows, t0), t);
    FilterLater(rows, t0, t);
  }

  /** What a cached rule has of its row: every column that is read again. */
  ghost predicate Carries(c: CachedRule, r: Rule) {
    && c.id == r.id
    && c.ruleType == r.ruleType
    && c.matchType == r.matchType
    && c.pattern == r.pattern
    && c.order == r.order
    && c.expiresAt == r.expiresAt
    && c.kind == r.kind
  }

  /** No row in force matches. */
  ghost predicate NoMatch(rows: seq<Rule>, t: Time, matches: CachedRule -> bool) {
    forall q, d :: q in rows && q.isActive && (q.expiresAt.None? || q.expiresAt.value > t) && Carries(d, q) ==> !matches(d)
  }

  /** The rule is that of a row in force, matches, and is of least order among those
      that do. */
  ghost predicate IsLeastMatch(rows: seq<Rule>, t: Time, matches: CachedRule -> bool, r: Rule, c: CachedRule) {
    && r in rows && r.isActive && (r.expiresAt.None? || r.expiresAt.value > t)
    && Carries(c, r) && matches(c)
    && forall q, d :: q in rows && q.isActive && (q.expiresAt.None? || q.expiresAt.value > t) && Carries(d, q) && matches(d) ==>
         r.order <= q.order
  }

  lemma CarriesAll()
    ensures forall r, c :: Carries(c, r) <==> c == ToCached(r)
  {
  }

  /** What the chosen rule is, said without sorting or searching, on the columns of
      the table; and none is chosen only when no row in force matches. */
  lemma DirectIsLeast(rows: seq<Rule>, t: Time, matches: CachedRule -> bool)
    ensures Direct(rows, t, matches).None? <==> NoMatch(rows, t, matches)
    ensures Direct(rows, t, matches).Some? ==> exists r :: IsLeastMatch(rows, t, matches, r, Direct(rows, t, matches).value)
  {
    ActiveMayAnswer(rows, t);
    FirstIsLeast(rows, t, Active(rows, t), matches);
  }

  lemma {:induction false} FirstOfLeast(rows: seq<Rule>, matches: CachedRule -> bool)
    requires Sorted(rows)
    ensures FirstOf(rows, matches).None? <==> forall r :: r in rows ==> !matches(ToCached(r))
    ensures FirstOf(rows, matches).Some? ==>
              var r := FirstOf(rows, matches).value;
              r in rows && matches(ToCached(r)) && forall q :: q in rows && matches(ToCached(q)) ==> r.order <= q.order
  {
    if rows != [] {
      FirstOfLeast(rows[1..], matches);
      assert rows == [rows[0]] + rows[1..];
    }
  }

  /***** Maintenance between the snapshot and the request *****/

  /** The two tasks that change rows without an operator: `expire_rules` and
      `prune_stale_rules`, each run at some time. */
  datatype Maintenance = ExpireRules(at: Time) | PruneStale(at: Time, days: nat)

  function SweepRows(rows: seq<Rule>, now: Time): seq<Rule> {
    if rows == [] then [] else [Swept(rows[0], now)] + SweepRows(rows[1..], now)
  }

  function PruneRows(rows: seq<Rule>, now: Time, days: nat): seq<Rule> {
    if rows == [] then []
    else (if IsStale(rows[0], now, days) then [] else [rows[0]]) + PruneRows(rows[1..], now, days)
  }

  function Maintain(rows: seq<Rule>, tasks: seq<Maintenance>): seq<Rule>
    decreases |tasks|
  {
    if tasks == [] then rows
    else
      var next := match tasks[0]
        case ExpireRules(at) => SweepRows(rows, at)
        case PruneStale(at, days) => PruneRows(rows, at, days);
      Maintain(next, tasks[1..])
  }

  lemma {:induction false} SweepKeepsLive(rows: seq<Rule>, at: Time, t: Time)
    requires at <= t
    ensures LiveRows(SweepRows(rows, at), t) == LiveRows(rows, t)
  {
    if rows != [] {
      SweepKeepsLive(rows[1..], at, t);
      assert SweepRows(rows, at)[1..] == SweepRows(rows[1..], at);
    }
  }

  lemma {:induction false} PruneKeepsLive(rows: seq<Rule>, at: Time, days: nat, t: Time)
    ensures LiveRows(PruneRows(rows, at, days), t) == LiveRows(rows, t)
  {
    if rows != [] {
      PruneKeepsLive(rows[1..], at, days, t);
      var rest := PruneRows(rows[1..], at, days);
      if IsStale(rows[0], at, days) {
        assert [] + rest == rest && [] + LiveRows(rows[1..], t) == LiveRows(rows[1..], t);
      } else {
        assert ([rows[0]] + rest)[1..] == rest;
      }
    }
  }

  lemma {:induction false} MaintenanceKeepsLive(rows: seq<Rule>, tasks: seq<Maintenance>, t: Time)
    requires forall m :: m in tasks ==> m.at <= t
    ensures LiveRows(Maintain(rows, tasks), t) == LiveRows(rows, t)
    decreases |tasks|
  {
    if tasks != [] {
      match tasks[0] {
        case ExpireRules(at) =>
          SweepKeepsLive(rows, at, t);
          MaintenanceKeepsLive(SweepRows(rows, at), tasks[1..], t);
        case PruneStale(at, days) =>
          PruneKeepsLive(rows, at, days, t);
          MaintenanceKeepsLive(PruneRows(rows, at, days), tasks[1..], t);
      }
    }
  }

  /** However many sweeps and prunes ran before the snapshot and however many
      others ran before the request, the cached answer and the table's answer
      are the one the untouched rows give. */
  lemma MaintenanceIsInvisible(rows: seq<Rule>, before: seq<Maintenance>, after: seq<Maintenance>,
                               t0: Time, t: Time, matches: CachedRule -> bool)
    requires t0 <= t
    requires forall m :: m in before ==> m.at <= t0
    requires forall m :: m in after ==> m.at <= t
    ensures FirstCached(Snapshot(Maintain(rows, before), t0), t, matches) == Direct(rows, t, matches)
    ensures Direct(Maintain(rows, after), t, matches) == Direct(rows, t, matches)
  {
    CachedIsDirect(Maintain(rows, before), t0, t, matches);
    MaintenanceKeepsLive(rows, before, t);
    MaintenanceKeepsLive(rows, after, t);
  }

  /***** Ties *****/

  /** What the database may answer: the live rows, in order, in any order among
      rows of the same order. `order_by("priority")` promises no more. */
  ghost predicate MayAnswer(rows: seq<Rule>, now: Time, answer: seq<Rule>) {
    Sorted(answer) && forall r :: r in answer <==> r in rows && IsLive(r, now)
  }

  lemma {:induction false} LiveRowsSorted(rows: seq<Rule>, t: Time)
    requires Sorted(rows)
    ensures Sorted(LiveRows(rows, t))
  {
    if rows != [] {
      LiveRowsSorted(rows[1..], t);
      LiveRowsMembers(rows[1..], t);
      var live := LiveRows(rows, t);
      if IsLive(rows[0], t) {
        assert live[1..] == LiveRows(rows[1..], t);
      } else {
        assert live == LiveRows(rows[1..], t);
      }
    }
  }

  /** The first match of any answer that is sorted and has exactly the live rows. */
  lemma FirstIsLeast(rows: seq<Rule>, t: Time, answer: seq<Rule>, matches: CachedRule -> bool)
    requires MayAnswer(rows, t, answer)
    ensures FirstOf(answer, matches).None? <==> NoMatch(rows, t, matches)
    ensures FirstOf(answer, matches).Some? ==>
              var r := FirstOf(answer, matches).value; IsLeastMatch(rows, t, matches, r, ToCached(r))
  {
    FirstOfLeast(answer, matches);
    CarriesAll();
    if FirstOf(answer, matches).None? {
      forall q, d | q in rows && IsLive(q, t) && Carries(d, q) ensures !matches(d) {
        assert q in answer;
      }
    } else {
      var r := FirstOf(answer, matches).value;
      assert Carries(ToCached(r), r) && r in rows && IsLive(r, t);
    }
  }

  /** An answer given at t0, filtered by expiry at t, could have been given at t,
      for these rows or for others with the same live rows then. */
  lemma LaterAnswer(rows: seq<Rule>, others: seq<Rule>, t0: Time, t: Time, answer: seq<Rule>)
    requires t0 <= t && MayAnswer(rows, t0, answer) && LiveRows(rows, t) == LiveRows(others, t)
    ensures MayAnswer(others, t, LiveRows(answer, t))
  {
    LiveRowsSorted(answer, t);
    LiveRowsMembers(answer, t);
    LiveRowsMembers(rows, t);
    LiveRowsMembers(others, t);
    forall r ensures r in LiveRows(answer, t) <==> r in others && IsLive(r, t) {
      assert IsLive(r, t) ==> IsLive(r, t0);
      assert r in others && IsLive(r, t) <==> r in LiveRows(rows, t);
    }
  }

  /**
   * Whichever way the database breaks ties, then and now, and whatever sweeps and
   * prunes ran before either query: the cache finds a rule exactly when the table
   * does, and both are live matching rows of the same least order, so the same
   * rule wherever that order has one live match.
   */
  lemma CachedIsDirectUpToTies(rows: seq<Rule>, before: seq<Maintenance>, after: seq<Maintenance>,
                               t0: Time, t: Time, cached: seq<Rule>, direct: seq<Rule>, matches: CachedRule -> bool)
    requires t0 <= t
    requires (forall m :: m in before ==> m.at <= t0) && (forall m :: m in after ==> m.at <= t)
    requires MayAnswer(Maintain(rows, before), t0, cached) && MayAnswer(Maintain(rows, after), t, direct)
    ensures var hit, first := FirstCached(Cache(cached), t, matches), FirstOf(direct, matches);
            && (hit.None? <==> first.None?)
            && (first.Some? ==>
                  && (exists c :: IsLeastMatch(rows, t, matches, first.value, c))
                  && (exists r :: IsLeastMatch(rows, t, matches, r, hit.value))
                  && hit.value.order == first.value.order
                  && ((forall r, c :: IsLeastMatch(rows, t, matches, r, c) ==> r == first.value) ==> Carries(hit.value, first.value)))
  {
    MaintenanceKeepsLive(rows, before, t);
    MaintenanceKeepsLive(rows, after, t);
    SkipIsFilter(cached, t, matches);
    LaterAnswer(Maintain(rows, before), rows, t0, t, cached);
    LaterAnswer(Maintain(rows, after), rows, t, t, direct);
    LiveOfLive(direct, t);
    FirstIsLeast(rows, t, LiveRows(cached, t), matches);
    FirstIsLeast(rows, t, direct, matches);
  }

  lemma {:induction false} LiveOfLive(rows: seq<Rule>, t: Time)
    requires forall r :: r in rows ==> IsLive(r, t)
    ensures LiveRows(rows, t) == rows
  {
    if rows != [] {
      LiveOfLive(rows[1..], t);
    }
  }

  /** The cached list a rebuild may store from a table at a time. */
  ghost predicate MayStore(rows: seq<Rule>, now: Time, list: seq<CachedRule>) {
    exists answer: seq<Rule> :: MayAnswer(rows, now, answer) && list == Cache(answer)
  }

  /** What the table at a time says of a match: there is none exactly when no row in
      force matches, and otherwise it is one of least order among those that do. */
  ghost predicate IsAnswer(rows: seq<Rule>, now: Time, matches: CachedRule -> bool, hit: Option<CachedRule>) {
    match hit
    case None => NoMatch(rows, now, matches)
    case Some(c) => exists r :: IsLeastMatch(rows, now, matches, r, c)
  }

  lemma ActiveMayAnswer(rows: seq<Rule>, now: Time)
    ensures MayAnswer(rows, now, Active(rows, now)) && MayStore(rows, now, Snapshot(rows, now))
  {
    ByOrderSorts(LiveRows(rows, now));
    LiveRowsMembers(rows, now);
  }

  /** Whatever list was stored at t0, what it gives at t is an answer of the table. */
  lemma StoredListAnswers(rows: seq<Rule>, t0: Time, t: Time, list: seq<CachedRule>, matches: CachedRule -> bool)
    requires t0 <= t && MayStore(rows, t0, list)
    ensures IsAnswer(rows, t, matches, FirstCached(list, t, matches))
  {
    var answer: seq<Rule> :| MayAnswer(rows, t0, answer) && list == Cache(answer);
    SkipIsFilter(answer, t, matches);
    LaterAnswer(rows, rows, t0, t, answer);
    FirstIsLeast(rows, t, LiveRows(answer, t), matches);
  }

  /***** What the two tasks leave *****/

  /** The sweep touches two things and no row else: a row past its expiry is
      inactive, and if it was an auto row awaiting review it is marked as never
      reviewed. */
  lemma {:induction false} SweepRowsAre(rows: seq<Rule>, now: Time)
    ensures |SweepRows(rows, now)| == |rows|
    ensures forall i :: 0 <= i < |rows| ==>
              var r, r' := rows[i], SweepRows(rows, now)[i];
              if r.expiresAt.None? || r.expiresAt.value > now then r' == r
              else
                && !r'.isActive
                && r'.(isActive := r.isActive, kind := r.kind) == r
                && r'.kind == (if r.kind.BlockKind? && r.source == Auto && r.kind.review == Pending
                               then r.kind.(review := ExpiredUnreviewed) else r.kind)
  {
    if rows != [] {
      SweepRowsAre(rows[1..], now);
    }
  }

  /** The prune removes the auto rows that are inactive, are neither awaiting review
      nor decided on, and expired more than `days` days ago; and only those. */
  lemma {:induction false} PruneRowsAre(rows: seq<Rule>, now: Time, days: nat)
    ensures forall r :: r in PruneRows(rows, now, days) <==>
              && r in rows
              && !(&& r.source == Auto && !r.isActive
                   && r.expiresAt.Some? && r.expiresAt.value + days * 86_400_000_000 < now
                   && r.kind.BlockKind? && (r.kind.review == NotApplicable || r.kind.review == ExpiredUnreviewed))
  {
    if rows != [] {
      PruneRowsAre(rows[1..], now, days);
      assert rows == [rows[0]] + rows[1..];
    }
  }
}
