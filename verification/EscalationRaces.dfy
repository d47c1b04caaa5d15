/**
 * Challenge escalation with requests in flight. A request reads its address's
 * counter in `evaluate_request` (src/django_waf/services/rule_engine.py) and
 * increments it only later, in `_handle_verdict` (src/django_waf/middleware.py);
 * between the two any number of other requests may do either.
 */
module EscalationRaces {
  import opened Wrappers
  import opened Escalation

  type WorkerId = string

  /** `inside` holds the requests that were given a challenge and have not counted
      it yet; `sent` records every redirect to the challenge page, by address. */
  datatype State = State(store: Store, inside: map<WorkerId, Visit>, sent: seq<string>)

  datatype Step =
    | Enter(w: WorkerId, visit: Visit)
    | Leave(w: WorkerId, now: int)
    | Verified(ip: string, now: int)

  predicate Enabled(s: State, step: Step) {
    match step
    case Enter(w, _) => w !in s.inside
    case Leave(w, _) => w in s.inside
    case Verified(_, _) => true
  }

  function Next(c: Config, s: State, step: Step): State
    requires Enabled(s, step)
  {
    match step
    case Enter(w, v) =>
      var (store, r) := Evaluate(c, s.store, v);
      if r.verdict == Challenged && !v.onChallengePath then s.(store := store, inside := s.inside[w := v])
      else s.(store := Handle(store, v, r).0)
    case Leave(w, now) =>
      var v := s.inside[w].(now := now);
      State(Handle(s.store, v, Result(Challenged, None)).0, s.inside - {w}, s.sent + [v.ip])
    case Verified(ip, now) => s.(store := Solved(s.store, ip, now))
  }

  ghost predicate IsRun(c: Config, t: seq<State>, steps: seq<Step>) {
    && |t| == |steps| + 1
    && (forall i: nat :: i < |steps| ==> Took(c, t, steps, i))
    && OffPage(t[0])
  }

  ghost predicate Took(c: Config, t: seq<State>, steps: seq<Step>, i: nat)
    requires i < |steps| < |t|
  {
    Enabled(t[i], steps[i]) && t[i + 1] == Next(c, t[i], steps[i])
  }

  /** Only requests that are to be redirected wait inside. */
  ghost predicate OffPage(s: State) { forall w :: w in s.inside ==> !s.inside[w].onChallengePath }

  function Times(ip: string, sent: seq<string>): nat {
    if sent == [] then 0 else Times(ip, sent[..|sent| - 1]) + if sent[|sent| - 1] == ip then 1 else 0
  }

  /** The requests of an address in flight. */
  ghost function InFlight(s: State, ip: string): set<WorkerId> {
    set w | w in s.inside && s.inside[w].ip == ip
  }

  /***** The bound *****/

  /** The address a step is about, when it reads or counts for one. */
  ghost predicate IsOf(s: State, step: Step, ip: string) {
    match step
    case Enter(_, v) => v.ip == ip
    case Leave(w, _) => w in s.inside && s.inside[w].ip == ip
    case Verified(_, _) => false
  }

  function NowOf(step: Step): int {
    if step.Enter? then step.visit.now else step.now
  }

  /** One step of a stretch in which the address never solves, no solved flag
      speaks for it, and its counter, once it has one, has not lapsed. */
  ghost predicate Unbroken(s: State, step: Step, ip: string, counted: bool) {
    && !(step.Verified? && step.ip == ip)
    && (step.Enter? && step.visit.ip == ip ==> step.visit.bot || !SolvedLive(s.store, ip, step.visit.now))
    && (counted && IsOf(s, step, ip) ==> ip in s.store.challenged && NowOf(step) < s.store.challenged[ip].deadline)
  }

  /** How many redirects of the address came between two states. */
  ghost function Since(t: seq<State>, i: nat, j: nat, ip: string): int
    requires i < |t| && j < |t|
  {
    Times(ip, t[j].sent) - Times(ip, t[i].sent)
  }

  ghost predicate Stretch(c: Config, t: seq<State>, steps: seq<Step>, i: nat, j: nat, ip: string, width: nat)
    requires IsRun(c, t, steps) && i <= j <= |steps|
  {
    && (forall k: nat :: i <= k < j ==> UnbrokenAt(t, steps, i, k, ip))
    && (forall k: nat :: i <= k <= j ==> |InFlight(t[k], ip)| <= width)
  }

  ghost predicate UnbrokenAt(t: seq<State>, steps: seq<Step>, i: nat, k: nat, ip: string)
    requires i <= k < |steps| < |t|
  {
    Unbroken(t[k], steps[k], ip, Since(t, i, k, ip) > 0)
  }

  lemma OneMoreSent(sent: seq<string>, last: string, ip: string)
    ensures Times(ip, sent + [last]) == Times(ip, sent) + if last == ip then 1 else 0
  {
    assert (sent + [last])[..|sent|] == sent;
  }

  /** A request that enters leaves the counter alone, and goes on to be challenged
      only below the threshold. */
  lemma EnterGated(c: Config, s: State, w: WorkerId, v: Visit)
    requires w !in s.inside && (v.bot || !SolvedLive(s.store, v.ip, v.now))
    ensures var s' := Next(c, s, Enter(w, v));
            && s'.store.challenged == s.store.challenged && s'.sent == s.sent
            && (s'.inside == s.inside || (s'.inside == s.inside[w := v] && !v.onChallengePath && LiveCount(s.store, v.ip, v.now) < c.threshold))
  {
  }

  /** Another address's request leaves this one's counter alone. */
  lemma EnterElsewhere(c: Config, s: State, w: WorkerId, v: Visit, ip: string)
    requires w !in s.inside && v.ip != ip
    ensures var s' := Next(c, s, Enter(w, v));
            && s'.sent == s.sent && SameCounter(s.store, s'.store, ip)
            && InFlight(s', ip) == InFlight(s, ip)
  {
    var s' := Next(c, s, Enter(w, v));
    forall k ensures k in InFlight(s', ip) <==> k in InFlight(s, ip) {
    }
  }

  lemma LeaveCounts(c: Config, s: State, w: WorkerId, now: int)
    requires w in s.inside && !s.inside[w].onChallengePath
    ensures var s', ip := Next(c, s, Leave(w, now)), s.inside[w].ip;
            && s'.store.challenged == s.store.challenged[ip := Counter(LiveCount(s.store, ip, now) + 1, now + CHALLENGED_TTL)]
            && s'.sent == s.sent + [ip] && s'.inside == s.inside - {w}
  {
  }

  /** The accounts of a stretch: the counter has kept up, and redirects made and
      redirects on their way stay within the bound. */
  ghost predicate Bounded(c: Config, s: State, ip: string, redirects: int, width: nat) {
    && 0 <= redirects
    && (redirects > 0 ==> ip in s.store.challenged && redirects <= s.store.challenged[ip].count)
    && redirects + |InFlight(s, ip)| <= c.threshold + width - 1
    && OffPage(s)
  }

  lemma StepBounded(c: Config, s: State, s': State, step: Step, ip: string, redirects: int, width: nat)
    requires Enabled(s, step) && s' == Next(c, s, step)
    requires Bounded(c, s, ip, redirects, width) && Unbroken(s, step, ip, redirects > 0)
    requires |InFlight(s', ip)| <= width && c.threshold > 0
    ensures Bounded(c, s', ip, redirects + Times(ip, s'.sent) - Times(ip, s.sent), width)
  {
    match step {
      case Enter(w, v) =>
        if v.ip == ip {
          EnterGated(c, s, w, v);
        } else {
          EnterElsewhere(c, s, w, v, ip);
          KeepsOffPage(c, s, w, v);
        }
      case Leave(w, now) =>
        LeaveCounts(c, s, w, now);
        OneMoreSent(s.sent, s.inside[w].ip, ip);
        Departs(s, s', w, ip);
      case Verified(_, _) =>
        assert InFlight(s', ip) == InFlight(s, ip);
    }
  }

  lemma KeepsOffPage(c: Config, s: State, w: WorkerId, v: Visit)
    requires w !in s.inside && OffPage(s)
    ensures OffPage(Next(c, s, Enter(w, v)))
  {
  }

  lemma Departs(s: State, s': State, w: WorkerId, ip: string)
    requires w in s.inside && s'.inside == s.inside - {w}
    ensures |InFlight(s', ip)| == |InFlight(s, ip)| - if s.inside[w].ip == ip then 1 else 0
  {
    var before, after := InFlight(s, ip), InFlight(s', ip);
    forall k ensures k in after <==> k in before && k != w {
    }
    assert after == before - {w};
    assert w in before <==> s.inside[w].ip == ip;
  }

  lemma {:induction false} StretchBounded(c: Config, t: seq<State>, steps: seq<Step>, i: nat, j: nat, ip: string, width: nat)
    requires IsRun(c, t, steps) && i <= j <= |steps| && c.threshold > 0
    requires Stretch(c, t, steps, i, j, ip, width) && OffPage(t[i])
    ensures Bounded(c, t[j], ip, Since(t, i, j, ip), width)
  {
    if i < j {
      assert Stretch(c, t, steps, i, j - 1, ip, width);
      StretchBounded(c, t, steps, i, j - 1, ip, width);
      assert UnbrokenAt(t, steps, i, j - 1, ip) && Took(c, t, steps, j - 1);
      StepBounded(c, t[j - 1], t[j], steps[j - 1], ip, Since(t, i, j - 1, ip), width);
    }
  }

  lemma {:induction false} RunStaysOffPage(c: Config, t: seq<State>, steps: seq<Step>, i: nat)
    requires IsRun(c, t, steps) && i <= |steps|
    ensures OffPage(t[i])
  {
    if i > 0 {
      RunStaysOffPage(c, t, steps, i - 1);
      var step := steps[i - 1];
      assert Took(c, t, steps, i - 1);
      if step.Enter? {
        KeepsOffPage(c, t[i - 1], step.w, step.visit);
      }
    }
  }

  /**
   * The bound under concurrency. However the reads and the counts of its requests
   * interleave with each other and with everyone else's, an address with at most
   * `width` requests in flight at a time is redirected at most threshold + width
   * - 1 times in an unbroken stretch. With one at a time that is the threshold.
   */
  lemma RaceBound(c: Config, t: seq<State>, steps: seq<Step>, i: nat, j: nat, ip: string, width: nat)
    requires IsRun(c, t, steps) && i <= j <= |steps| && c.threshold > 0
    requires Stretch(c, t, steps, i, j, ip, width)
    ensures Since(t, i, j, ip) <= c.threshold + width - 1
  {
    RunStaysOffPage(c, t, steps, i);
    StretchBounded(c, t, steps, i, j, ip, width);
  }

  /***** The bound is met *****/

  /** A visit that would be challenged, from an address with no history. */
  function Visitor(ip: string): Visit {
    Visit(ip, 0, false, false, Facts(None, None, false, true, Allowed), None)
  }

  /** `n` redirects made and the workers `ws` on their way to another. */
  function Sent(ip: string, n: nat): seq<string> {
    if n == 0 then [] else Sent(ip, n - 1) + [ip]
  }

  function Crowd(ip: string, n: nat, ws: set<WorkerId>): State {
    State(Store(if n == 0 then map[] else map[ip := Counter(n, CHALLENGED_TTL)], map[], map[]),
          map w | w in ws :: Visitor(ip),
          Sent(ip, n))
  }

  lemma {:induction false} SentTimes(ip: string, n: nat)
    ensures Times(ip, Sent(ip, n)) == n
  {
    if n > 0 {
      SentTimes(ip, n - 1);
      OneMoreSent(Sent(ip, n - 1), ip, ip);
    }
  }

  lemma CrowdEnters(c: Config, ip: string, n: nat, ws: set<WorkerId>, w: WorkerId)
    requires n < c.threshold && w !in ws
    ensures Enabled(Crowd(ip, n, ws), Enter(w, Visitor(ip)))
    ensures Next(c, Crowd(ip, n, ws), Enter(w, Visitor(ip))) == Crowd(ip, n, ws + {w})
  {
    var s := Crowd(ip, n, ws);
    assert LiveCount(s.store, ip, 0) == n;
    assert Evaluate(c, s.store, Visitor(ip)) == (s.store, Result(Challenged, None));
    assert s.inside[w := Visitor(ip)] == Crowd(ip, n, ws + {w}).inside;
  }

  lemma CrowdLeaves(c: Config, ip: string, n: nat, ws: set<WorkerId>, w: WorkerId)
    requires w in ws
    ensures Enabled(Crowd(ip, n, ws), Leave(w, 0))
    ensures Next(c, Crowd(ip, n, ws), Leave(w, 0)) == Crowd(ip, n + 1, ws - {w})
  {
    var s := Crowd(ip, n, ws);
    assert LiveCount(s.store, ip, 0) == n;
    assert s.store.challenged[ip := Counter(n + 1, CHALLENGED_TTL)] == map[ip := Counter(n + 1, CHALLENGED_TTL)];
    assert s.inside - {w} == Crowd(ip, n + 1, ws - {w}).inside;
  }

  predicate CrowdStep(step: Step, ip: string) {
    match step
    case Enter(_, v) => v == Visitor(ip)
    case Leave(_, now) => now == 0
    case Verified(_, _) => false
  }

  ghost predicate IsCrowd(s: State, ip: string, width: nat) {
    exists n: nat, ws: set<WorkerId> :: s == Crowd(ip, n, ws) && |ws| <= width
  }

  /** A run all of whose states are crowds of at most `width`. */
  ghost predicate CrowdRun(c: Config, t: seq<State>, steps: seq<Step>, ip: string, width: nat) {
    && |t| == |steps| + 1
    && (forall i: nat :: i < |steps| ==> Taken(c, t, steps, ip, i))
    && (forall i: nat :: i < |t| ==> IsCrowd(t[i], ip, width))
  }

  ghost predicate Taken(c: Config, t: seq<State>, steps: seq<Step>, ip: string, i: nat)
    requires i < |steps| < |t|
  {
    Took(c, t, steps, i) && CrowdStep(steps[i], ip)
  }

  /** Such a run leads from nobody to this crowd. */
  ghost predicate Reached(c: Config, ip: string, width: nat, n: nat, ws: set<WorkerId>) {
    exists t, steps :: CrowdRun(c, t, steps, ip, width) && t[0] == Crowd(ip, 0, {}) && t[|steps|] == Crowd(ip, n, ws)
  }

  lemma Start(c: Config, ip: string, width: nat)
    ensures Reached(c, ip, width, 0, {})
  {
    var t: seq<State>, steps: seq<Step> := [Crowd(ip, 0, {})], [];
    assert IsCrowd(t[0], ip, width);
    assert CrowdRun(c, t, steps, ip, width);
  }

  lemma Extend(c: Config, ip: string, width: nat, n: nat, ws: set<WorkerId>, step: Step, n': nat, ws': set<WorkerId>)
    requires Reached(c, ip, width, n, ws) && CrowdStep(step, ip) && |ws'| <= width
    requires Enabled(Crowd(ip, n, ws), step) && Next(c, Crowd(ip, n, ws), step) == Crowd(ip, n', ws')
    ensures Reached(c, ip, width, n', ws')
  {
    var t, steps :| CrowdRun(c, t, steps, ip, width) && t[0] == Crowd(ip, 0, {}) && t[|steps|] == Crowd(ip, n, ws);
    ExtendRun(c, t, steps, ip, width, step, Crowd(ip, n', ws'));
    assert IsCrowd(Crowd(ip, n', ws'), ip, width);
  }

  lemma ExtendRun(c: Config, t: seq<State>, steps: seq<Step>, ip: string, width: nat, step: Step, s: State)
    requires CrowdRun(c, t, steps, ip, width) && Enabled(t[|steps|], step) && Next(c, t[|steps|], step) == s
    requires CrowdStep(step, ip) && IsCrowd(s, ip, width)
    ensures CrowdRun(c, t + [s], steps + [step], ip, width)
  {
    var t', steps' := t + [s], steps + [step];
    forall i: nat | i < |steps'| ensures Taken(c, t', steps', ip, i) {
      if i < |steps| {
        assert Taken(c, t, steps, ip, i);
      }
    }
    forall i: nat | i < |t'| ensures IsCrowd(t'[i], ip, width) {
      if i < |t| {
        assert IsCrowd(t[i], ip, width);
      }
    }
  }

  lemma MoveIn(c: Config, ip: string, width: nat, n: nat, ws: set<WorkerId>, w: WorkerId)
    requires Reached(c, ip, width, n, ws) && n < c.threshold && w !in ws && |ws + {w}| <= width
    ensures Reached(c, ip, width, n, ws + {w})
  {
    CrowdEnters(c, ip, n, ws, w);
    Extend(c, ip, width, n, ws, Enter(w, Visitor(ip)), n, ws + {w});
  }

  lemma MoveOut(c: Config, ip: string, width: nat, n: nat, ws: set<WorkerId>, w: WorkerId)
    requires Reached(c, ip, width, n, ws) && w in ws && |ws - {w}| <= width
    ensures Reached(c, ip, width, n + 1, ws - {w})
  {
    CrowdLeaves(c, ip, n, ws, w);
    Extend(c, ip, width, n, ws, Leave(w, 0), n + 1, ws - {w});
  }

  /** One request at a time, up to one below the threshold. */
  lemma {:induction false} OneByOne(c: Config, ip: string, n: nat, w: WorkerId, width: nat)
    requires n < c.threshold && width > 0
    ensures Reached(c, ip, width, n, {})
  {
    if n == 0 {
      Start(c, ip, width);
    } else {
      OneByOne(c, ip, n - 1, w, width);
      MoveIn(c, ip, width, n - 1, {}, w);
      MoveOut(c, ip, width, n - 1, {} + {w}, w);
      assert {} + {w} - {w} == {};
    }
  }

  predicate Distinct(ws: seq<WorkerId>) { forall i, j :: 0 <= i < j < |ws| ==> ws[i] != ws[j] }

  function Members(ws: seq<WorkerId>): set<WorkerId> { set w | w in ws }

  lemma MembersStep(ws: seq<WorkerId>)
    requires Distinct(ws) && ws != []
    ensures var n := |ws| - 1;
            ws[n] !in Members(ws[..n]) && Members(ws) == Members(ws[..n]) + {ws[n]} && Members(ws) - {ws[n]} == Members(ws[..n])
  {
    var n := |ws| - 1;
    assert ws == ws[..n] + [ws[n]];
    forall w ensures w in Members(ws) <==> w in Members(ws[..n]) + {ws[n]} {
    }
  }

  lemma {:induction false} MembersSize(ws: seq<WorkerId>)
    requires Distinct(ws)
    ensures |Members(ws)| == |ws|
  {
    if ws != [] {
      MembersStep(ws);
      MembersSize(ws[..|ws| - 1]);
    }
  }

  /** All of them read the counter at one below the threshold, */
  lemma {:induction false} AllEnter(c: Config, ip: string, width: nat, n: nat, ws: seq<WorkerId>)
    requires n < c.threshold && Reached(c, ip, width, n, {}) && Distinct(ws) && |ws| <= width
    ensures Reached(c, ip, width, n, Members(ws))
  {
    if ws == [] {
      assert Members(ws) == {};
    } else {
      var rest, w := ws[..|ws| - 1], ws[|ws| - 1];
      AllEnter(c, ip, width, n, rest);
      MembersStep(ws);
      MembersSize(ws);
      MoveIn(c, ip, width, n, Members(rest), w);
    }
  }

  /** and all of them are redirected. */
  lemma {:induction false} AllLeave(c: Config, ip: string, width: nat, n: nat, ws: seq<WorkerId>, total: nat)
    requires Reached(c, ip, width, n, Members(ws)) && Distinct(ws) && |ws| <= width && total == n + |ws|
    ensures Reached(c, ip, width, total, {})
    decreases |ws|
  {
    if ws == [] {
      assert Members(ws) == {};
    } else {
      var rest, w := ws[..|ws| - 1], ws[|ws| - 1];
      MembersStep(ws);
      MembersSize(rest);
      MoveOut(c, ip, width, n, Members(ws), w);
      AllLeave(c, ip, width, n + 1, rest, total);
    }
  }

  lemma CrowdIsUnbroken(c: Config, s: State, step: Step, ip: string, width: nat, counted: bool)
    requires IsCrowd(s, ip, width) && (counted ==> Times(ip, s.sent) > 0)
    requires CrowdStep(step, ip)
    ensures Unbroken(s, step, ip, counted)
  {
    var n: nat, ws: set<WorkerId> :| s == Crowd(ip, n, ws) && |ws| <= width;
    SentTimes(ip, n);
  }

  lemma CrowdIsNarrow(s: State, ip: string, width: nat)
    requires IsCrowd(s, ip, width)
    ensures |InFlight(s, ip)| <= width && OffPage(s)
  {
    var n: nat, ws: set<WorkerId> :| s == Crowd(ip, n, ws) && |ws| <= width;
    assert InFlight(s, ip) == ws;
  }

  /**
   * The bound is exact: for every threshold and every set of workers there is an
   * unbroken run in which one address, never with more requests in flight than
   * workers, is redirected threshold + workers - 1 times. So the threshold itself
   * bounds an address exactly when its requests do not overlap.
   */
  lemma RaceBoundIsMet(c: Config, ip: string, ws: seq<WorkerId>) returns (t: seq<State>, steps: seq<Step>)
    requires c.threshold > 0 && ws != [] && Distinct(ws)
    ensures IsRun(c, t, steps) && Stretch(c, t, steps, 0, |steps|, ip, |ws|)
    ensures Since(t, 0, |steps|, ip) == c.threshold + |ws| - 1
  {
    var n := c.threshold - 1 + |ws|;
    CrowdGathers(c, ip, ws);
    t, steps :| CrowdRun(c, t, steps, ip, |ws|) && t[0] == Crowd(ip, 0, {}) && t[|steps|] == Crowd(ip, n, {});
    CrowdRunIsStretch(c, t, steps, ip, |ws|);
    SentTimes(ip, 0);
    SentTimes(ip, n);
  }

  lemma CrowdGathers(c: Config, ip: string, ws: seq<WorkerId>)
    requires c.threshold > 0 && ws != [] && Distinct(ws)
    ensures Reached(c, ip, |ws|, c.threshold - 1 + |ws|, {})
  {
    OneByOne(c, ip, c.threshold - 1, ws[0], |ws|);
    AllEnter(c, ip, |ws|, c.threshold - 1, ws);
    AllLeave(c, ip, |ws|, c.threshold - 1, ws, c.threshold - 1 + |ws|);
  }

  lemma CrowdRunIsStretch(c: Config, t: seq<State>, steps: seq<Step>, ip: string, width: nat)
    requires CrowdRun(c, t, steps, ip, width) && t[0] == Crowd(ip, 0, {})
    ensures IsRun(c, t, steps) && Stretch(c, t, steps, 0, |steps|, ip, width)
  {
    CrowdIsNarrow(t[0], ip, width);
    SentTimes(ip, 0);
    forall k: nat | k <= |steps| ensures |InFlight(t[k], ip)| <= width {
      CrowdIsNarrow(t[k], ip, width);
    }
    forall k: nat | k < |steps| ensures Took(c, t, steps, k) {
      assert Taken(c, t, steps, ip, k);
    }
    forall k: nat | k < |steps| ensures UnbrokenAt(t, steps, 0, k, ip) {
      assert Taken(c, t, steps, ip, k);
      CrowdIsUnbroken(c, t[k], steps[k], ip, width, Since(t, 0, k, ip) > 0);
    }
  }
}
