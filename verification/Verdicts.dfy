/**
 * From the rule tables to the verdict: a request evaluated with the rules a load
 * returned is judged by what the tables say, whatever the caches did on the way.
 */
module Verdicts {
  import opened Wrappers
  import opened Rules
  import opened RuleEvaluation
  import RuleCache
  import Escalation

  /** What the two match loops hand to the rest of the evaluation: the id of the
      allow rule found, and the id and action of the block rule found. */
  ghost predicate Hands(allow: Option<CachedRule>, block: Option<CachedRule>, f: Escalation.Facts) {
    && (match allow
        case None => f.allowRule == None
        case Some(a) => f.allowRule == Some(a.id))
    && (match block
        case None => f.blockRule == None
        case Some(b) => b.kind.BlockKind? && f.blockRule == Some(Escalation.MatchedRule(b.id, b.kind.action)))
  }

  /** The row that decides: in force, matching, of least order among those. */
  ghost predicate Decides(rows: seq<Rule>, now: Time, matches: CachedRule -> bool, r: Rule) {
    exists c :: IsLeastMatch(rows, now, matches, r, c)
  }

  /** The verdict a block row stands for, at the count seen. */
  ghost predicate Judges(r: Rule, count: nat, threshold: nat, result: Escalation.Result)
    requires r.kind.BlockKind?
  {
    match r.kind.action
    case Block => result == Escalation.Result(Escalation.Blocked, Some(r.id))
    case Throttle => result == Escalation.Result(Escalation.Throttled, Some(r.id))
    case LogOnly => result == Escalation.Result(Escalation.Logged, Some(r.id))
    case Challenge =>
      if count >= threshold then result == Escalation.Result(Escalation.Blocked, None)
      else result == Escalation.Result(Escalation.Challenged, Some(r.id))
  }

  /**
   * In every run of the cache, for every load and every request evaluated with its
   * rules at any later time: there are committed states of the two tables, each
   * with every write whose bump came before the load began, such that a row of the
   * allow table in force that matches passes the request, in the name of one of
   * least order; and if none does and no block entry stands, a row of the block
   * table in force that matches decides it by its action, one of least order.
   */
  lemma JudgedByTheTables(t: seq<RuleCache.State>, steps: seq<RuleCache.Step>, n: nat, now: Time,
                          blocks: CachedRule -> bool, allows: CachedRule -> bool,
                          c: Escalation.Config, s: Escalation.Store, v: Escalation.Visit)
      returns (j: nat, i: nat, h: nat, g: nat)
    requires RuleCache.IsRun(t, steps) && RuleCache.Init(t[0]) && n < |t[|steps|].loads| && t[|steps|].loads[n].at <= now
    requires forall m :: 0 <= m < |t[|steps|].history| ==> forall r :: r in t[|steps|].history[m].block ==> r.kind.BlockKind?
    requires var e := t[|steps|].loads[n].entry; Hands(FirstCached(e.allow, now, allows), FirstCached(e.block, now, blocks), v.facts)
    ensures RuleCache.LoadSpans(t, steps, n, j, i)
    ensures h < |t[|steps|].history| && RuleCache.HasBumpsBefore(t, steps, j, h)
    ensures g < |t[|steps|].history| && RuleCache.HasBumpsBefore(t, steps, j, g)
    ensures var result := Escalation.Evaluate(c, s, v).1;
            var blockRows, allowRows := t[|steps|].history[h].block, t[|steps|].history[g].allow;
            && (!NoMatch(allowRows, now, allows) ==>
                  exists r :: Decides(allowRows, now, allows, r) && result == Escalation.Result(Escalation.Passed, Some(r.id)))
            && (NoMatch(allowRows, now, allows) && v.ip in s.blocked && v.now < s.blocked[v.ip].deadline ==>
                  result == Escalation.Result(Escalation.Blocked, s.blocked[v.ip].rule))
            && (NoMatch(allowRows, now, allows) && !(v.ip in s.blocked && v.now < s.blocked[v.ip].deadline) && !NoMatch(blockRows, now, blocks) ==>
                  exists r :: && Decides(blockRows, now, blocks, r) && r.kind.BlockKind?
                              && Judges(r, Escalation.CountSeen(s, v), c.threshold, result))
  {
    j, i, h, g := RuleCache.LoadAnswersLikeTheTables(t, steps, n, now, blocks, allows);
    var e := t[|steps|].loads[n].entry;
    var blockRows, allowRows := t[|steps|].history[h].block, t[|steps|].history[g].allow;
    Escalation.VerdictTable(c, s, v);
    AnswerDecides(allowRows, now, allows, FirstCached(e.allow, now, allows));
    AnswerDecides(blockRows, now, blocks, FirstCached(e.block, now, blocks));
  }

  lemma AnswerDecides(rows: seq<Rule>, now: Time, matches: CachedRule -> bool, hit: Option<CachedRule>)
    requires IsAnswer(rows, now, matches, hit)
    ensures hit.None? <==> NoMatch(rows, now, matches)
    ensures hit.Some? ==> exists r :: Decides(rows, now, matches, r) && r in rows && Carries(hit.value, r)
  {
    if hit.Some? {
      var r :| IsLeastMatch(rows, now, matches, r, hit.value);
      assert Decides(rows, now, matches, r) && Carries(hit.value, r);
    }
  }
}
