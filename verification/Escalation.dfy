/**
 * Challenge escalation: the order of evaluation in `evaluate_request` and its
 * one gate before every challenge (src/django_waf/services/rule_engine.py), the
 * counting of redirects in `_handle_verdict` (src/django_waf/middleware.py) and
 * the reset on a solve in `VerifyView.post` (src/django_waf/views.py).
 *
 * Times are whole seconds. Which rules match, whether the rate is exceeded and
 * what the score comes to are facts of the request.
 */
module Escalation {
  import opened Wrappers
  import opened Rules

  const CHALLENGED_TTL: int := 3600
  const SOLVED_TTL: int := 86400
  const BLOCKED_TTL: int := 300

  datatype Verdict = Allowed | Blocked | Challenged | Throttled | Passed | Logged

  /** `waf:challenged:{ip}` and `waf:blocked:{ip}`; an unattributed block is the
      value "1". */
  datatype Counter = Counter(count: nat, deadline: int)
  datatype BlockEntry = BlockEntry(rule: Option<RuleId>, deadline: int)

  datatype Store = Store(challenged: map<string, Counter>, solved: map<string, int>, blocked: map<string, BlockEntry>)

  datatype Config = Config(threshold: nat, escalationTtl: nat)

  /** What the checks before and between the gates come to for a request. */
  datatype Facts = Facts(
    allowRule: Option<RuleId>,
    blockRule: Option<MatchedRule>,
    throttled: bool,
    refererMissing: bool,
    scored: Verdict)
  datatype MatchedRule = MatchedRule(id: RuleId, action: Action)

  /** `bot` is the fingerprint's verdict; `escalationRule` is what creating the
      persistent rule would return; `onChallengePath` says the request is for the
      challenge or verify page itself. */
  datatype Visit = Visit(ip: string, now: int, bot: bool, onChallengePath: bool, facts: Facts, escalationRule: Option<RuleId>)

  datatype Event = Request(visit: Visit) | Solve(ip: string, now: int)

  /** The verdict and the rule it is attributed to. */
  datatype Result = Result(verdict: Verdict, rule: Option<RuleId>)
  datatype Response = Forbidden | TooMany | Redirect | View

  function LiveCount(s: Store, ip: string, now: int): nat {
    if ip in s.challenged && now < s.challenged[ip].deadline then s.challenged[ip].count else 0
  }

  predicate SolvedLive(s: Store, ip: string, now: int) {
    ip in s.solved && now < s.solved[ip]
  }

  /** `_get_unsolved_challenge_count`. */
  function Unsolved(s: Store, v: Visit): nat {
    if v.bot || !SolvedLive(s, v.ip, v.now) then LiveCount(s, v.ip, v.now) else 0
  }

  /** What reading it leaves behind: a solved flag clears the counter. */
  function AfterRead(s: Store, v: Visit): Store {
    if LiveCount(s, v.ip, v.now) > 0 && !v.bot && SolvedLive(s, v.ip, v.now)
    then s.(challenged := s.challenged - {v.ip}) else s
  }

  function RecordBlock(s: Store, ip: string, rule: Option<RuleId>, deadline: int): Store {
    s.(blocked := s.blocked[ip := BlockEntry(rule, deadline)])
  }

  /** `_gate_challenge_or_escalate`. */
  function Gate(c: Config, s: Store, v: Visit, challenge: Result): (Store, Result) {
    var read := AfterRead(s, v);
    if Unsolved(s, v) < c.threshold then (read, challenge)
    else (RecordBlock(read, v.ip, v.escalationRule, v.now + c.escalationTtl), Result(Blocked, None))
  }

  function ActionVerdict(a: Action): Verdict {
    match a
    case Block => Blocked
    case Challenge => Challenged
    case Throttle => Throttled
    case LogOnly => Logged
  }

  /** `evaluate_request`. */
  function Evaluate(c: Config, s: Store, v: Visit): (Store, Result) {
    var f := v.facts;
    if f.allowRule.Some? then (s, Result(Passed, f.allowRule))
    else if v.ip in s.blocked && v.now < s.blocked[v.ip].deadline then (s, Result(Blocked, s.blocked[v.ip].rule))
    else if f.blockRule.Some? then
      var result := Result(ActionVerdict(f.blockRule.value.action), Some(f.blockRule.value.id));
      if result.verdict == Challenged then Gate(c, s, v, result) else (s, result)
    else if f.throttled then (s, Result(Throttled, None))
    else if f.refererMissing then Gate(c, s, v, Result(Challenged, None))
    else if f.scored == Challenged then Gate(c, s, v, Result(Challenged, None))
    else (s, Result(f.scored, None))
  }

  /** `_handle_verdict`. */
  function Handle(s: Store, v: Visit, r: Result): (Store, Response) {
    match r.verdict
    case Blocked => (RecordBlock(s, v.ip, r.rule, v.now + BLOCKED_TTL), Forbidden)
    case Throttled => (s, TooMany)
    case Challenged =>
      if v.onChallengePath then (s, View)
      else (s.(challenged := s.challenged[v.ip := Counter(LiveCount(s, v.ip, v.now) + 1, v.now + CHALLENGED_TTL)]), Redirect)
    case _ => (s, View)
  }

  /** One request through the middleware. */
  function Serve(c: Config, s: Store, v: Visit): (Store, Response) {
    var (s1, r) := Evaluate(c, s, v);
    Handle(s1, v, r)
  }

  /** A verified solution: the flag is set and the counter deleted. */
  function Solved(s: Store, ip: string, now: int): Store {
    s.(solved := s.solved[ip := now + SOLVED_TTL], challenged := s.challenged - {ip})
  }

  /** The Redis keys the three functions share. */
  class EscalationStore {
    var challenged: map<string, Counter>
    var solved: map<string, int>
    var blocked: map<string, BlockEntry>

    ghost function Contents(): Store
      reads this
    {
      Store(challenged, solved, blocked)
    }

    constructor ()
      ensures Contents() == Store(map[], map[], map[])
    {
      challenged, solved, blocked := map[], map[], map[];
    }

    method UnsolvedCount(v: Visit) returns (count: nat)
      modifies this`challenged
      ensures count == Unsolved(old(Contents()), v) && Contents() == AfterRead(old(Contents()), v)
    {
      if v.ip !in challenged || challenged[v.ip].deadline <= v.now || challenged[v.ip].count == 0 {
        return 0;
      }
      count := challenged[v.ip].count;
      if v.bot {
        return;
      }
      if v.ip in solved && v.now < solved[v.ip] {
        challenged := challenged - {v.ip};
        return 0;
      }
    }

    method GateOrEscalate(c: Config, v: Visit, challenge: Result) returns (r: Result)
      modifies this
      ensures (Contents(), r) == Gate(c, old(Contents()), v, challenge)
    {
      var count := UnsolvedCount(v);
      if count < c.threshold {
        return challenge;
      }
      blocked := blocked[v.ip := BlockEntry(v.escalationRule, v.now + c.escalationTtl)];
      return Result(Blocked, None);
    }

    method EvaluateRequest(c: Config, v: Visit) returns (r: Result)
      modifies this
      ensures (Contents(), r) == Evaluate(c, old(Contents()), v)
    {
      var f := v.facts;
      if f.allowRule.Some? {
        return Result(Passed, f.allowRule);
      }
      if v.ip in blocked && v.now < blocked[v.ip].deadline {
        return Result(Blocked, blocked[v.ip].rule);
      }
      if f.blockRule.Some? {
        r := Result(ActionVerdict(f.blockRule.value.action), Some(f.blockRule.value.id));
        if r.verdict == Challenged {
          r := GateOrEscalate(c, v, r);
        }
        return;
      }
      if f.throttled {
        return Result(Throttled, None);
      }
      if f.refererMissing {
        r := GateOrEscalate(c, v, Result(Challenged, None));
        return;
      }
      if f.scored == Challenged {
        r := GateOrEscalate(c, v, Result(Challenged, None));
        return;
      }
      return Result(f.scored, None);
    }

    method HandleVerdict(v: Visit, r: Result) returns (response: Response)
      modifies this
      ensures (Contents(), response) == Handle(old(Contents()), v, r)
    {
      if r.verdict == Blocked {
        blocked := blocked[v.ip := BlockEntry(r.rule, v.now + BLOCKED_TTL)];
        return Forbidden;
      }
      if r.verdict == Throttled {
        return TooMany;
      }
      if r.verdict == Challenged {
        if v.onChallengePath {
          return View;
        }
        var count := if v.ip in challenged && v.now < challenged[v.ip].deadline then challenged[v.ip].count else 0;
        challenged := challenged[v.ip := Counter(count + 1, v.now + CHALLENGED_TTL)];
        return Redirect;
      }
      return View;
    }

    /** One request through the middleware. */
    method ServeRequest(c: Config, v: Visit) returns (response: Response)
      modifies this
      ensures (Contents(), response) == Serve(c, old(Contents()), v)
      ensures Contents() == After(c, old(Contents()), Request(v))
    {
      var r := EvaluateRequest(c, v);
      response := HandleVerdict(v, r);
    }

    method MarkSolved(ip: string, now: int)
      modifies this
      ensures Contents() == Solved(old(Contents()), ip, now)
    {
      solved := solved[ip := now + SOLVED_TTL];
      challenged := challenged - {ip};
    }
  }

  /***** Runs *****/

  function After(c: Config, s: Store, e: Event): Store {
    match e
    case Request(v) => Serve(c, s, v).0
    case Solve(ip, now) => Solved(s, ip, now)
  }

  ghost predicate IsRun(c: Config, t: seq<Store>, events: seq<Event>) {
    && |t| == |events| + 1
    && forall i :: 0 <= i < |events| ==> t[i + 1] == After(c, t[i], events[i])
  }

  /** Event i sends `ip` to the challenge page. */
  ghost predicate IsRedirect(c: Config, t: seq<Store>, events: seq<Event>, i: nat, ip: string)
    requires IsRun(c, t, events) && i < |events|
  {
    events[i].Request? && events[i].visit.ip == ip && Serve(c, t[i], events[i].visit).1 == Redirect
  }

  ghost function Redirects(c: Config, t: seq<Store>, events: seq<Event>, i: nat, j: nat, ip: string): nat
    requires IsRun(c, t, events) && i <= j <= |events|
  {
    if i == j then 0
    else Redirects(c, t, events, i, j - 1, ip) + if IsRedirect(c, t, events, j - 1, ip) then 1 else 0
  }

  /** When the last redirect of `ip` in events i to j was. */
  ghost function LastRedirect(c: Config, t: seq<Store>, events: seq<Event>, i: nat, j: nat, ip: string): Option<int>
    requires IsRun(c, t, events) && i <= j <= |events|
  {
    if i == j then None
    else if IsRedirect(c, t, events, j - 1, ip) then Some(events[j - 1].visit.now)
    else LastRedirect(c, t, events, i, j - 1, ip)
  }

  /** A stretch in which `ip` never solves, no solved flag speaks for it (or it is
      a bot, for which none does), and no redirect comes an hour or more after
      the one before. */
  ghost predicate Unbroken(c: Config, t: seq<Store>, events: seq<Event>, i: nat, j: nat, ip: string)
    requires IsRun(c, t, events) && i <= j <= |events|
  {
    && (forall k :: i <= k < j && events[k].Solve? ==> events[k].ip != ip)
    && (forall k :: i <= k < j && events[k].Request? && events[k].visit.ip == ip ==>
          events[k].visit.bot || !SolvedLive(t[k], ip, events[k].visit.now))
    && (forall k :: i <= k < j && IsRedirect(c, t, events, k, ip) && LastRedirect(c, t, events, i, k, ip).Some? ==>
          events[k].visit.now < LastRedirect(c, t, events, i, k, ip).value + CHALLENGED_TTL)
  }

  /** The counter has kept up with the redirects of an unbroken stretch. */
  ghost predicate Counted(s: Store, ip: string, redirects: nat, last: Option<int>) {
    redirects > 0 ==> last.Some? && ip in s.challenged && s.challenged[ip].count >= redirects
                      && s.challenged[ip].deadline == last.value + CHALLENGED_TTL
  }

  lemma OtherEvents(c: Config, s: Store, e: Event, ip: string)
    requires e.Solve? ==> e.ip != ip
    requires e.Request? && e.visit.ip == ip ==> (e.visit.bot || !SolvedLive(s, ip, e.visit.now)) && Serve(c, s, e.visit).1 != Redirect
    ensures var s' := After(c, s, e);
            (ip in s.challenged <==> ip in s'.challenged) && (ip in s.challenged ==> s'.challenged[ip] == s.challenged[ip])
  {
  }

  lemma RedirectCounts(c: Config, s: Store, v: Visit)
    requires v.bot || !SolvedLive(s, v.ip, v.now)
    requires Serve(c, s, v).1 == Redirect
    ensures LiveCount(s, v.ip, v.now) < c.threshold
    ensures var s' := Serve(c, s, v).0;
            v.ip in s'.challenged && s'.challenged[v.ip] == Counter(LiveCount(s, v.ip, v.now) + 1, v.now + CHALLENGED_TTL)
  {
  }

  lemma {:induction false} StretchIsCounted(c: Config, t: seq<Store>, events: seq<Event>, i: nat, j: nat, ip: string)
    requires IsRun(c, t, events) && i <= j <= |events| && Unbroken(c, t, events, i, j, ip)
    ensures Counted(t[j], ip, Redirects(c, t, events, i, j, ip), LastRedirect(c, t, events, i, j, ip))
    ensures Redirects(c, t, events, i, j, ip) <= c.threshold
  {
    if i < j {
      StretchIsCounted(c, t, events, i, j - 1, ip);
      var e := events[j - 1];
      assert t[j] == After(c, t[j - 1], e);
      if IsRedirect(c, t, events, j - 1, ip) {
        RedirectCounts(c, t[j - 1], e.visit);
      } else {
        OtherEvents(c, t[j - 1], e, ip);
      }
    }
  }

  /** The three sources of a challenge, none of them overtaken by an earlier
      verdict. */
  predicate WouldChallenge(f: Facts) {
    && f.allowRule.None?
    && match f.blockRule
       case Some(r) => r.action == Challenge
       case None => !f.throttled && (f.refererMissing || f.scored == Challenged)
  }

  /**
   * The bound. In an unbroken stretch an address is redirected at most
   * `threshold` times; and once it has been, every request within the hour that
   * would be challenged, from whichever of the three sources, is blocked.
   */
  lemma EscalationBound(c: Config, t: seq<Store>, events: seq<Event>, i: nat, j: nat, v: Visit)
    requires IsRun(c, t, events) && i <= j <= |events| && Unbroken(c, t, events, i, j, v.ip)
    ensures Redirects(c, t, events, i, j, v.ip) <= c.threshold
    ensures && Redirects(c, t, events, i, j, v.ip) == c.threshold
            && (v.bot || !SolvedLive(t[j], v.ip, v.now))
            && (LastRedirect(c, t, events, i, j, v.ip).Some? ==> v.now < LastRedirect(c, t, events, i, j, v.ip).value + CHALLENGED_TTL)
            && WouldChallenge(v.facts)
            ==> Evaluate(c, t[j], v).1.verdict == Blocked && Serve(c, t[j], v).1 == Forbidden
  {
    StretchIsCounted(c, t, events, i, j, v.ip);
  }

  /***** The exact count *****/

  /** No counter from before the stretch is alive at any redirect in it. */
  ghost predicate StartsAtZero(c: Config, t: seq<Store>, events: seq<Event>, i: nat, j: nat, ip: string)
    requires IsRun(c, t, events) && i <= j <= |events|
  {
    forall k :: i <= k < j && IsRedirect(c, t, events, k, ip) ==> LiveCount(t[i], ip, events[k].visit.now) == 0
  }

  ghost predicate SameCounter(s: Store, s': Store, ip: string) {
    (ip in s.challenged <==> ip in s'.challenged) && (ip in s.challenged ==> s'.challenged[ip] == s.challenged[ip])
  }

  /** What the counter holds after a stretch that starts at zero: nothing new
      before the first redirect, and from then on exactly the redirects. */
  ghost predicate CountedExactly(start: Store, s: Store, ip: string, redirects: nat, last: Option<int>) {
    if redirects == 0 then last.None? && SameCounter(start, s, ip)
    else last.Some? && ip in s.challenged && s.challenged[ip] == Counter(redirects, last.value + CHALLENGED_TTL)
  }

  lemma {:induction false} StretchIsCountedExactly(c: Config, t: seq<Store>, events: seq<Event>, i: nat, j: nat, ip: string)
    requires IsRun(c, t, events) && i <= j <= |events|
    requires Unbroken(c, t, events, i, j, ip) && StartsAtZero(c, t, events, i, j, ip)
    ensures CountedExactly(t[i], t[j], ip, Redirects(c, t, events, i, j, ip), LastRedirect(c, t, events, i, j, ip))
  {
    if i < j {
      StretchIsCountedExactly(c, t, events, i, j - 1, ip);
      var e := events[j - 1];
      assert t[j] == After(c, t[j - 1], e);
      if IsRedirect(c, t, events, j - 1, ip) {
        RedirectCounts(c, t[j - 1], e.visit);
        assert LiveCount(t[i], ip, e.visit.now) == 0;
      } else {
        OtherEvents(c, t[j - 1], e, ip);
      }
    }
  }

  ghost predicate EntryStands(s: Store, v: Visit) { v.ip in s.blocked && v.now < s.blocked[v.ip].deadline }

  /** One gate: a would-be challenge is blocked when the count it reads has reached
      the threshold. */
  lemma GateDecides(c: Config, s: Store, v: Visit)
    requires WouldChallenge(v.facts) && !EntryStands(s, v)
    ensures Evaluate(c, s, v).1.verdict == (if Unsolved(s, v) >= c.threshold then Blocked else Challenged)
  {
  }

  /**
   * Escalation, exactly. In a run, after an unbroken stretch that starts at zero,
   * a would-be challenge within the hour of the last redirect is turned into a
   * block if and only if the stretch has had `threshold` redirects.
   */
  lemma EscalatesIff(c: Config, t: seq<Store>, events: seq<Event>, i: nat, j: nat, v: Visit)
    requires IsRun(c, t, events) && i <= j <= |events|
    requires Unbroken(c, t, events, i, j, v.ip) && StartsAtZero(c, t, events, i, j, v.ip)
    requires LiveCount(t[i], v.ip, v.now) == 0 && (v.bot || !SolvedLive(t[j], v.ip, v.now))
    requires LastRedirect(c, t, events, i, j, v.ip).Some? ==> v.now < LastRedirect(c, t, events, i, j, v.ip).value + CHALLENGED_TTL
    requires WouldChallenge(v.facts) && !EntryStands(t[j], v)
    ensures Evaluate(c, t[j], v).1.verdict
            == (if Redirects(c, t, events, i, j, v.ip) >= c.threshold then Blocked else Challenged)
  {
    StretchIsCountedExactly(c, t, events, i, j, v.ip);
    GateDecides(c, t[j], v);
  }

  /***** After a solve *****/

  /** The address has solved at event i, and no clock has gone back since. */
  ghost predicate SolvedAt(events: seq<Event>, i: nat, j: nat, ip: string, at: int) {
    && i < j <= |events|
    && events[i] == Solve(ip, at)
    && forall k :: i < k < j && events[k].Solve? && events[k].ip == ip ==> at <= events[k].now
  }

  /** The flag lasts its day, whatever else happens. */
  lemma {:induction false} FlagStays(c: Config, t: seq<Store>, events: seq<Event>, i: nat, j: nat, ip: string, at: int)
    requires IsRun(c, t, events) && SolvedAt(events, i, j, ip, at)
    ensures ip in t[j].solved && at + SOLVED_TTL <= t[j].solved[ip]
  {
    assert t[j] == After(c, t[j - 1], events[j - 1]);
    if i < j - 1 {
      FlagStays(c, t, events, i, j - 1, ip, at);
      RequestsKeepFlags(c, t[j - 1], events[j - 1]);
    }
  }

  lemma RequestsKeepFlags(c: Config, s: Store, e: Event)
    ensures e.Request? ==> After(c, s, e).solved == s.solved
  {
  }

  /**
   * In every run, for a day after a solve, no request of the address that is not
   * fingerprinted as a bot is escalated, whatever was counted before or since: it
   * writes no block entry at the gate, and a would-be challenge is a challenge
   * unless an entry already stands.
   */
  lemma SolvedIsNotEscalated(c: Config, t: seq<Store>, events: seq<Event>, i: nat, j: nat, v: Visit, at: int)
    requires IsRun(c, t, events) && SolvedAt(events, i, j, v.ip, at)
    requires c.threshold > 0 && !v.bot && v.now < at + SOLVED_TTL
    ensures Evaluate(c, t[j], v).0.blocked == t[j].blocked
    ensures WouldChallenge(v.facts) && !EntryStands(t[j], v) ==>
              Evaluate(c, t[j], v).1.verdict == Challenged && LiveCount(Evaluate(c, t[j], v).0, v.ip, v.now) == 0
  {
    FlagStays(c, t, events, i, j, v.ip, at);
  }

  /** A solve starts the count again. In every unbroken stretch that follows one,
      that is while only bots come or after the flag has lapsed, the counter is
      exactly the redirects since the solve. */
  lemma SolveResets(c: Config, t: seq<Store>, events: seq<Event>, i: nat, j: nat, ip: string)
    requires IsRun(c, t, events) && i < j <= |events|
    requires events[i].Solve? && events[i].ip == ip && Unbroken(c, t, events, i + 1, j, ip)
    ensures CountedExactly(t[i + 1], t[j], ip, Redirects(c, t, events, i + 1, j, ip), LastRedirect(c, t, events, i + 1, j, ip))
    ensures Redirects(c, t, events, i + 1, j, ip) == 0 ==> ip !in t[j].challenged
  {
    assert t[i + 1] == After(c, t[i], events[i]);
    StretchIsCountedExactly(c, t, events, i + 1, j, ip);
  }

  /** Within the flag's day a request that is not a bot's starts the count again
      each time: every such redirect leaves the counter at exactly one, whatever
      bots of the same address had brought it to. */
  lemma FlagRestartsCount(c: Config, t: seq<Store>, events: seq<Event>, i: nat, j: nat, ip: string, at: int)
    requires IsRun(c, t, events) && j < |events| && SolvedAt(events, i, j, ip, at)
    requires IsRedirect(c, t, events, j, ip) && !events[j].visit.bot && events[j].visit.now < at + SOLVED_TTL
    ensures ip in t[j + 1].challenged && t[j + 1].challenged[ip] == Counter(1, events[j].visit.now + CHALLENGED_TTL)
  {
    FlagStays(c, t, events, i, j, ip, at);
    assert t[j + 1] == After(c, t[j], events[j]);
    ClearedThenCounted(c, t[j], events[j].visit);
  }

  lemma ClearedThenCounted(c: Config, s: Store, v: Visit)
    requires !v.bot && SolvedLive(s, v.ip, v.now) && Serve(c, s, v).1 == Redirect
    ensures v.ip in Serve(c, s, v).0.challenged
    ensures Serve(c, s, v).0.challenged[v.ip] == Counter(1, v.now + CHALLENGED_TTL)
  {
  }

  /** So what the counter holds after any redirect of an address that solved within
      the day: one for a request that is not a bot's, one more than was live for a
      bot's. */
  lemma CountAfterSolve(c: Config, t: seq<Store>, events: seq<Event>, i: nat, j: nat, ip: string, at: int)
    requires IsRun(c, t, events) && j < |events| && SolvedAt(events, i, j, ip, at)
    requires IsRedirect(c, t, events, j, ip) && events[j].visit.now < at + SOLVED_TTL
    ensures ip in t[j + 1].challenged
    ensures t[j + 1].challenged[ip].count == (if events[j].visit.bot then LiveCount(t[j], ip, events[j].visit.now) else 0) + 1
  {
    assert t[j + 1] == After(c, t[j], events[j]);
    if events[j].visit.bot {
      RedirectCounts(c, t[j], events[j].visit);
    } else {
      FlagRestartsCount(c, t, events, i, j, ip, at);
    }
  }

  /** The block entry an escalation writes, with the escalation's own TTL and its
      rule, is not the one it leaves: handling the verdict writes it again, with
      the ordinary TTL and no rule. */
  lemma EscalationEntryIsOverwritten(c: Config, s: Store, v: Visit)
    requires WouldChallenge(v.facts) && !EntryStands(s, v)
    requires Unsolved(s, v) >= c.threshold
    ensures Evaluate(c, s, v).0.blocked[v.ip] == BlockEntry(v.escalationRule, v.now + c.escalationTtl)
    ensures Serve(c, s, v).0.blocked[v.ip] == BlockEntry(None, v.now + BLOCKED_TTL)
  {
  }

  /***** Every verdict *****/

  /** The count the gate goes by: the address's live counter, unless it solved within
      the day and this is no bot. */
  ghost function CountSeen(s: Store, v: Visit): nat {
    if v.ip in s.challenged && v.now < s.challenged[v.ip].deadline && (v.bot || v.ip !in s.solved || s.solved[v.ip] <= v.now)
    then s.challenged[v.ip].count else 0
  }

  /**
   * The verdict on every request. An allow rule passes it; failing that a standing
   * block entry blocks it, for the entry's rule; failing that the block rule that
   * matches decides by its action, its challenge subject to the count; then the
   * rate limit throttles; then a missing referer and then the score challenge,
   * subject to the count; and otherwise the score's verdict stands.
   */
  lemma VerdictTable(c: Config, s: Store, v: Visit)
    ensures var r, f := Evaluate(c, s, v).1, v.facts;
            var count := CountSeen(s, v);
            if f.allowRule.Some? then r == Result(Passed, f.allowRule)
            else if v.ip in s.blocked && v.now < s.blocked[v.ip].deadline then r == Result(Blocked, s.blocked[v.ip].rule)
            else if f.blockRule.Some? then
              match f.blockRule.value.action
              case Block => r == Result(Blocked, Some(f.blockRule.value.id))
              case Throttle => r == Result(Throttled, Some(f.blockRule.value.id))
              case LogOnly => r == Result(Logged, Some(f.blockRule.value.id))
              case Challenge =>
                if count >= c.threshold then r == Result(Blocked, None) else r == Result(Challenged, Some(f.blockRule.value.id))
            else if f.throttled then r == Result(Throttled, None)
            else if f.refererMissing || f.scored == Challenged then
              if count >= c.threshold then r == Result(Blocked, None) else r == Result(Challenged, None)
            else r == Result(f.scored, None)
  {
  }

  /** What each verdict is answered with and leaves in Redis: a block is recorded for
      300 seconds with its rule; a challenge is a redirect that counts one and lasts
      an hour, except on the challenge page itself; no other verdict is recorded.
      By OthersUntouched nothing is written for another address. */
  lemma ResponseTable(c: Config, s: Store, v: Visit)
    ensures var (read, r) := Evaluate(c, s, v);
            var (after, response) := Serve(c, s, v);
            && (response == Forbidden <==> r.verdict == Blocked)
            && (response == TooMany <==> r.verdict == Throttled)
            && (response == Redirect <==> r.verdict == Challenged && !v.onChallengePath)
            && (r.verdict == Blocked ==> v.ip in after.blocked && after.blocked[v.ip] == BlockEntry(r.rule, v.now + 300))
            && (r.verdict != Blocked ==> after.blocked == s.blocked)
            && (response == Redirect ==>
                  v.ip in after.challenged && after.challenged[v.ip] == Counter(CountBefore(s, v) + 1, v.now + 3600))
            && after.solved == s.solved
  {
  }

  ghost predicate SameFor(s: Store, s': Store, ip: string) {
    && (ip in s'.blocked <==> ip in s.blocked) && (ip in s.blocked ==> s'.blocked[ip] == s.blocked[ip])
    && (ip in s'.challenged <==> ip in s.challenged) && (ip in s.challenged ==> s'.challenged[ip] == s.challenged[ip])
  }

  lemma GateSparesOthers(c: Config, s: Store, v: Visit, challenge: Result, ip: string)
    requires ip != v.ip
    ensures SameFor(s, Gate(c, s, v, challenge).0, ip)
  {
  }

  lemma HandlingSparesOthers(s: Store, v: Visit, r: Result, ip: string)
    requires ip != v.ip
    ensures SameFor(s, Handle(s, v, r).0, ip)
  {
  }

  lemma OthersUntouched(c: Config, s: Store, v: Visit, ip: string)
    requires ip != v.ip
    ensures SameFor(s, Serve(c, s, v).0, ip)
  {
    forall challenge ensures SameFor(s, Gate(c, s, v, challenge).0, ip) {
      GateSparesOthers(c, s, v, challenge, ip);
    }
    var (read, r) := Evaluate(c, s, v);
    HandlingSparesOthers(read, v, r, ip);
  }

  /** What a redirect adds one to: the live counter, or nothing if reading it cleared
      it. */
  ghost function CountBefore(s: Store, v: Visit): nat {
    if !v.bot && v.ip in s.solved && v.now < s.solved[v.ip] then 0
    else if v.ip in s.challenged && v.now < s.challenged[v.ip].deadline then s.challenged[v.ip].count
    else 0
  }

  /** A verified solution: the flag lasts a day and the counter is gone. */
  lemma SolveLeaves(s: Store, ip: string, now: int)
    ensures var after := Solved(s, ip, now);
            && ip in after.solved && after.solved[ip] == now + 86400 && ip !in after.challenged && after.blocked == s.blocked
            && forall other :: other != ip ==>
                 && (other in after.solved <==> other in s.solved) && (other in s.solved ==> after.solved[other] == s.solved[other])
                 && (other in after.challenged <==> other in s.challenged) && (other in s.challenged ==> after.challenged[other] == s.challenged[other])
  {
  }

  /***** Blocks over runs *****/

  ghost predicate ForbiddenAt(c: Config, t: seq<Store>, events: seq<Event>, i: nat, ip: string)
    requires IsRun(c, t, events) && i < |events|
  {
    events[i].Request? && events[i].visit.ip == ip && Serve(c, t[i], events[i].visit).1 == Forbidden
  }

  /** No request of the address between the two is stamped before `since`. */
  ghost predicate NoneBefore(events: seq<Event>, i: nat, j: nat, ip: string, since: int)
    requires i <= j <= |events|
  {
    forall k :: i <= k < j && events[k].Request? && events[k].visit.ip == ip ==> since <= events[k].visit.now
  }

  /** The entry a block leaves is only ever put off. */
  lemma {:induction false} EntryLasts(c: Config, t: seq<Store>, events: seq<Event>, i: nat, j: nat, ip: string)
    requires IsRun(c, t, events) && i < j <= |events| && ForbiddenAt(c, t, events, i, ip)
    requires NoneBefore(events, i + 1, j, ip, events[i].visit.now)
    ensures ip in t[j].blocked && events[i].visit.now + 300 <= t[j].blocked[ip].deadline
  {
    var e := events[j - 1];
    assert t[j] == After(c, t[j - 1], e);
    if i < j - 1 {
      EntryLasts(c, t, events, i, j - 1, ip);
    }
    if e.Request? && e.visit.ip == ip {
      ResponseTable(c, t[j - 1], e.visit);
    } else if e.Request? {
      OthersUntouched(c, t[j - 1], e.visit, ip);
    }
  }

  /**
   * A block stands. In every run, after a Forbidden answer every request of that
   * address in the next 300 seconds that no allow rule matches is Forbidden,
   * whatever else is true of it; one that an allow rule matches is always served.
   */
  lemma BlockStands(c: Config, t: seq<Store>, events: seq<Event>, i: nat, j: nat, v: Visit)
    requires IsRun(c, t, events) && i < j <= |events| && ForbiddenAt(c, t, events, i, v.ip)
    requires NoneBefore(events, i + 1, j, v.ip, events[i].visit.now) && v.now < events[i].visit.now + 300
    ensures v.facts.allowRule.None? ==> Serve(c, t[j], v).1 == Forbidden && Evaluate(c, t[j], v).1.verdict == Blocked
    ensures v.facts.allowRule.Some? ==> Serve(c, t[j], v) == (t[j], View)
  {
    EntryLasts(c, t, events, i, j, v.ip);
    VerdictTable(c, t[j], v);
    ResponseTable(c, t[j], v);
  }

  /** The request of the address at k follows an earlier one, from i on, by less than
      300 seconds. */
  ghost predicate FollowsClosely(events: seq<Event>, i: nat, k: nat, ip: string)
    requires k < |events| && events[k].Request?
  {
    exists p :: && i <= p < k && events[p].Request? && events[p].visit.ip == ip
                && events[k].visit.now < events[p].visit.now + 300 && NoneBefore(events, p + 1, k, ip, events[p].visit.now)
  }

  /**
   * And it does not lapse while the address keeps coming: each Forbidden answer
   * records the block again, so an address that is never away for 300 seconds, and
   * that no allow rule matches, is Forbidden for ever after its first block.
   */
  lemma {:induction false} BlockRollsOn(c: Config, t: seq<Store>, events: seq<Event>, i: nat, k: nat, ip: string)
    requires IsRun(c, t, events) && i <= k < |events| && ForbiddenAt(c, t, events, i, ip)
    requires events[k].Request? && events[k].visit.ip == ip
    requires forall m :: i < m <= k && events[m].Request? && events[m].visit.ip == ip ==>
               events[m].visit.facts.allowRule.None? && FollowsClosely(events, i, m, ip)
    ensures ForbiddenAt(c, t, events, k, ip)
    decreases k
  {
    if i < k {
      assert FollowsClosely(events, i, k, ip);
      var p :| && i <= p < k && events[p].Request? && events[p].visit.ip == ip
               && events[k].visit.now < events[p].visit.now + 300 && NoneBefore(events, p + 1, k, ip, events[p].visit.now);
      BlockRollsOn(c, t, events, i, p, ip);
      BlockStands(c, t, events, p, k, events[k].visit);
    }
  }
}
