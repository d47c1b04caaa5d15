/**
 * Auto-generated block rules: the guarded upsert of
 * src/django_waf/services/anomaly_detector.py run by any number of detector
 * processes at once, the operator's confirm and reject
 * (src/django_waf/views.py), the expiry sweep and pruning
 * (src/django_waf/tasks.py), as a step system over the BlockRule table.
 *
 * A write and the commit after it are one step: the row is locked from the read
 * the write is derived from. Pruning is two: the stale rows are selected, and
 * deleted by primary key later, because a delete receiver is registered. Rows of
 * the table are BlockKind rules.
 */
module AutoRules {
  import opened Wrappers
  import opened Rules
  import opened Text
  import opened Detectors

  type WorkerId = string

  /** The detector whose subnet path promotes CHALLENGE to BLOCK. */
  const UNSOLVED: string := "detect_unsolved_challenges"

  const DEFAULT_PRIORITY: int := 100

  /** The fields of the partial unique constraint on auto rules. */
  datatype AutoKey = AutoKey(ruleType: RuleType, pattern: string, action: Action)

  /** What one call of `_get_or_create_auto_rule` is asked to write. */
  datatype Request = Request(key: AutoKey, detector: string, quarantined: bool, matchType: MatchType, expiry: Time, confidence: real)

  /** Where a detector process is in the upsert. Once it has read, it holds the
      values derived from what it read: whether the operator's decision is to be
      kept, and the merged detector names. */
  datatype Phase =
    | Idle
    | Wants(req: Request)
    | Ready(req: Request, seen: Option<RuleId>, keep: bool, merged: string)
    | Lost(req: Request)

  /** `doomed` holds the rows a prune has selected and not yet deleted;
      `challenged` records the subnets whose CHALLENGE row the unsolved-challenge
      detector has written. */
  datatype State = State(now: Time, rows: map<RuleId, Rule>, workers: map<WorkerId, Phase>, doomed: set<RuleId>, challenged: set<string>)

  function KeyOf(r: Rule): AutoKey
    requires r.kind.BlockKind?
  {
    AutoKey(r.ruleType, r.pattern, r.kind.action)
  }

  predicate HasKey(r: Rule, key: AutoKey) {
    r.kind.BlockKind? && r.source == Auto && KeyOf(r) == key
  }

  predicate IsAutoRow(r: Rule) { r.kind.BlockKind? && r.source == Auto }

  predicate IsDecided(r: Rule) {
    r.kind.BlockKind? && r.kind.review in {Confirmed, Rejected}
  }

  ghost predicate KeyFree(s: State, key: AutoKey) {
    forall id :: id in s.rows ==> !HasKey(s.rows[id], key)
  }

  /** `select_for_update` has the row. */
  ghost predicate Locked(s: State, id: RuleId) {
    exists w :: w in s.workers && s.workers[w].Ready? && s.workers[w].seen == Some(id)
  }

  /** Review state and activity of a newly created rule. */
  function CreateReview(req: Request): Review { if req.quarantined then Pending else NotApplicable }

  function Inserted(req: Request, id: RuleId): Rule {
    Rule(id, req.key.ruleType, req.matchType, req.key.pattern, DEFAULT_PRIORITY, !req.quarantined, Auto,
         Some(req.expiry), req.confidence, 0,
         BlockKind(req.key.action, CreateReview(req), Merge("", req.detector)))
  }

  /** The update branch of `update_or_create` with the derived defaults. */
  function Updated(r: Rule, req: Request, keep: bool, merged: string): Rule
    requires r.kind.BlockKind?
  {
    var refreshed := r.(matchType := req.matchType, expiresAt := Some(req.expiry), confidence := req.confidence,
                        kind := r.kind.(detectors := merged));
    if keep then refreshed
    else refreshed.(isActive := !req.quarantined, kind := refreshed.kind.(review := CreateReview(req)))
  }

  /** The row the subnet path looks for before it chooses its action. */
  ghost predicate AlreadyChallenged(s: State, subnet: string) {
    exists id :: id in s.rows && HasKey(s.rows[id], AutoKey(Cidr, subnet, Challenge)) && s.rows[id].isActive
                 && Mentions(s.rows[id].kind.detectors, UNSOLVED)
  }

  datatype Step =
    | Tick(to: Time)
    /** The subnet path of the unsolved-challenge detector; only the action of
        the request is its own choice. */
    | Cross(w: WorkerId, req: Request)
    /** Any other call of the upsert. */
    | Ask(w: WorkerId, req: Request)
    | Read(w: WorkerId, seen: Option<RuleId>)
    | Update(w: WorkerId)
    | Insert(w: WorkerId, id: RuleId)
    | Conflict(w: WorkerId)
    | Reread(w: WorkerId, seen: Option<RuleId>)
    /** A row committed after this worker's read is updated with defaults derived
        before it existed. */
    | StaleUpdate(w: WorkerId, id: RuleId)
    | Confirm(id: RuleId)
    | Reject(id: RuleId)
    | Deactivate(id: RuleId)
    | MarkUnreviewed(id: RuleId)
    | Select(id: RuleId, days: nat)
    | Delete(id: RuleId)

  predicate IsOperator(step: Step, id: RuleId) { step == Confirm(id) || step == Reject(id) }

  ghost predicate CanRead(s: State, key: AutoKey, seen: Option<RuleId>) {
    match seen
    case None => KeyFree(s, key)
    case Some(id) => id in s.rows && HasKey(s.rows[id], key) && !Locked(s, id)
  }

  ghost predicate HasRow(s: State, id: RuleId) {
    id in s.rows && s.rows[id].kind.BlockKind?
  }

  ghost predicate Enabled(s: State, step: Step) {
    match step
    case Tick(to) => s.now <= to
    case Cross(w, req) => w in s.workers && s.workers[w].Idle? && req.detector == UNSOLVED && req.key.ruleType == Cidr
    case Ask(w, req) =>
      && w in s.workers && s.workers[w].Idle?
      && req.detector != "" && Without(req.detector, ',')
      && (req.detector == UNSOLVED ==> req.key.ruleType == Ip)
    case Read(w, seen) => w in s.workers && s.workers[w].Wants? && CanRead(s, s.workers[w].req.key, seen)
    case Update(w) => w in s.workers && s.workers[w].Ready? && s.workers[w].seen.Some? && HasRow(s, s.workers[w].seen.value)
    case Insert(w, id) =>
      && w in s.workers && s.workers[w].Ready? && s.workers[w].seen.None?
      && KeyFree(s, s.workers[w].req.key) && id !in s.rows
    case Conflict(w) => w in s.workers && s.workers[w].Ready? && s.workers[w].seen.None? && !KeyFree(s, s.workers[w].req.key)
    case Reread(w, seen) => w in s.workers && s.workers[w].Lost? && CanRead(s, s.workers[w].req.key, seen)
    case StaleUpdate(w, id) =>
      && w in s.workers && s.workers[w].Ready? && s.workers[w].seen.None?
      && id in s.rows && HasKey(s.rows[id], s.workers[w].req.key) && !Locked(s, id)
    case Confirm(id) => id in s.rows && s.rows[id].kind.BlockKind? && !Locked(s, id)
    case Reject(id) => id in s.rows && s.rows[id].kind.BlockKind? && !Locked(s, id)
    case Deactivate(id) => id in s.rows && !Locked(s, id)
    case MarkUnreviewed(id) => id in s.rows && !Locked(s, id)
    case Select(id, days) => id in s.rows && IsStale(s.rows[id], s.now, days)
    case Delete(id) => id in s.doomed && id in s.rows && !Locked(s, id)
  }

  /** `_auto_rule_write_defaults`: what the write is derived from. */
  function Derived(s: State, req: Request, seen: Option<RuleId>): Phase
    requires seen.Some? ==> seen.value in s.rows && s.rows[seen.value].kind.BlockKind?
  {
    match seen
    case None => Ready(req, None, false, Merge("", req.detector))
    case Some(id) => Ready(req, seen, IsDecided(s.rows[id]), Merge(s.rows[id].kind.detectors, req.detector))
  }

  /** The write of `req` reached the table. */
  function Wrote(s: State, w: WorkerId, req: Request, row: Rule): State {
    s.(rows := s.rows[row.id := row], workers := s.workers[w := Idle],
       challenged := if req.detector == UNSOLVED && req.key.ruleType == Cidr && req.key.action == Challenge
                     then s.challenged + {req.key.pattern} else s.challenged)
  }

  ghost function Next(s: State, step: Step): State
    requires Enabled(s, step)
  {
    match step
    case Tick(to) => s.(now := to)
    case Cross(w, req) =>
      var action := if AlreadyChallenged(s, req.key.pattern) then Block else Challenge;
      s.(workers := s.workers[w := Wants(req.(key := req.key.(action := action)))])
    case Ask(w, req) => s.(workers := s.workers[w := Wants(req)])
    case Read(w, seen) => s.(workers := s.workers[w := Derived(s, s.workers[w].req, seen)])
    case Update(w) =>
      var Ready(req, seen, keep, merged) := s.workers[w];
      Wrote(s, w, req, Updated(s.rows[seen.value], req, keep, merged).(id := seen.value))
    case Insert(w, id) => Wrote(s, w, s.workers[w].req, Inserted(s.workers[w].req, id))
    case Conflict(w) => s.(workers := s.workers[w := Lost(s.workers[w].req)])
    case Reread(w, seen) =>
      s.(workers := s.workers[w := if seen.None? then Idle else Derived(s, s.workers[w].req, seen)])
    case StaleUpdate(w, id) =>
      var Ready(req, _, keep, merged) := s.workers[w];
      Wrote(s, w, req, Updated(s.rows[id], req, keep, merged).(id := id))
    case Confirm(id) =>
      var r := s.rows[id];
      s.(rows := s.rows[id := r.(source := Admin, expiresAt := None, isActive := true, kind := r.kind.(review := Confirmed))])
    case Reject(id) =>
      var r := s.rows[id];
      s.(rows := s.rows[id := r.(isActive := false, kind := r.kind.(review := Rejected))])
    case Deactivate(id) => s.(rows := s.rows[id := Deactivated(s.rows[id], s.now)])
    case MarkUnreviewed(id) => s.(rows := s.rows[id := MarkedUnreviewed(s.rows[id], s.now)])
    case Select(id, _) => s.(doomed := s.doomed + {id})
    case Delete(id) => s.(rows := s.rows - {id}, doomed := s.doomed - {id})
  }

  /***** What every reachable state satisfies *****/

  /** The unique constraint: at most one auto row a key. */
  ghost predicate UniqueKeys(s: State) {
    forall a, b | a in s.rows && b in s.rows && a != b && IsAutoRow(s.rows[a]) && IsAutoRow(s.rows[b]) ::
      KeyOf(s.rows[a]) != KeyOf(s.rows[b])
  }

  /** The review states of one row. */
  ghost predicate RowOk(id: RuleId, r: Rule) {
    && r.id == id
    && r.kind.BlockKind?
    && (r.kind.review == Pending ==> r.source == Auto && !r.isActive)
    && (r.kind.review == Confirmed ==> r.source == Admin && r.isActive && r.expiresAt.None?)
    && (r.kind.review == Rejected ==> !r.isActive)
  }

  /** A stamp of the unsolved-challenge detector on a subnet row, CHALLENGE or
      BLOCK, has a crossing behind it that wrote the CHALLENGE row. */
  ghost predicate StampOk(s: State, r: Rule)
    requires r.kind.BlockKind?
  {
    r.ruleType == Cidr && Mentions(r.kind.detectors, UNSOLVED) && r.kind.action in {Block, Challenge} ==> r.pattern in s.challenged
  }

  ghost predicate RequestOk(s: State, req: Request) {
    && req.detector != "" && Without(req.detector, ',')
    && (req.detector == UNSOLVED && req.key.ruleType == Cidr ==>
          req.key.action == Challenge || (req.key.action == Block && req.key.pattern in s.challenged))
  }

  /** A worker that has read a row holds its lock, and what it derived is still
      what the row says. */
  ghost predicate PhaseOk(s: State, p: Phase) {
    match p
    case Idle => true
    case Wants(req) => RequestOk(s, req)
    case Lost(req) => RequestOk(s, req)
    case Ready(req, seen, keep, merged) =>
      && RequestOk(s, req)
      && (seen.None? ==> !keep && merged == Merge("", req.detector))
      && (seen.Some? ==>
            && seen.value in s.rows && HasKey(s.rows[seen.value], req.key)
            && keep == IsDecided(s.rows[seen.value])
            && merged == Merge(s.rows[seen.value].kind.detectors, req.detector))
  }

  predicate Holds(p: Phase) { p.Ready? && p.seen.Some? }

  ghost predicate OneHolder(s: State) {
    forall v, w | v in s.workers && w in s.workers && v != w && Holds(s.workers[v]) && Holds(s.workers[w]) ::
      s.workers[v].seen != s.workers[w].seen
  }

  ghost predicate Inv(s: State) {
    && UniqueKeys(s)
    && OneHolder(s)
    && (forall id :: id in s.rows ==> RowOk(id, s.rows[id]) && StampOk(s, s.rows[id]))
    && (forall w :: w in s.workers ==> PhaseOk(s, s.workers[w]))
  }

  /***** Each kind of step keeps it *****/

  /** The stamps on a merged value: the old ones and the writer's own. */
  lemma MergeStamp(existing: string, name: string)
    requires name != "" && Without(name, ',')
    ensures Mentions(Merge(existing, name), UNSOLVED) <==> name == UNSOLVED || Mentions(existing, UNSOLVED)
  {
    MergePlain(existing, name);
  }

  lemma NothingMentioned()
    ensures !Mentions("", UNSOLVED)
  {
    assert Split("", ',') == [""];
  }

  /** Steps that only move one worker. */
  lemma WorkerKeepsInv(s: State, s': State, w: WorkerId)
    requires Inv(s) && w in s.workers
    requires w in s'.workers && s' == s.(workers := s.workers[w := s'.workers[w]]) && PhaseOk(s, s'.workers[w])
    requires s'.workers[w].Ready? && s'.workers[w].seen.Some? ==> !Locked(s, s'.workers[w].seen.value)
    ensures Inv(s')
  {
    forall v | v in s'.workers ensures PhaseOk(s', s'.workers[v]) {
      assert PhaseOk(s, s'.workers[v]);
    }
    forall v, u | v in s'.workers && u in s'.workers && v != u && Holds(s'.workers[v]) && Holds(s'.workers[u])
      ensures s'.workers[v].seen != s'.workers[u].seen
    {
    }
  }

  /** A row that no other worker holds is replaced by one with the same key, or
      no longer an auto row. */
  lemma RowKeepsInv(s: State, s': State, id: RuleId, w: Option<WorkerId>)
    requires Inv(s) && s'.now >= s.now && s.challenged <= s'.challenged
    requires id in s.rows && id in s'.rows && s'.rows == s.rows[id := s'.rows[id]]
    requires RowOk(id, s'.rows[id]) && StampOk(s', s'.rows[id])
    requires s'.rows[id].source == Auto ==> s.rows[id].source == Auto && KeyOf(s'.rows[id]) == KeyOf(s.rows[id])
    requires forall v :: v in s.workers && Some(v) != w && s.workers[v].Ready? ==> s.workers[v].seen != Some(id)
    requires match w case None => s'.workers == s.workers case Some(v) => v in s.workers && s'.workers == s.workers[v := Idle]
    ensures Inv(s')
  {
    forall v | v in s'.workers ensures PhaseOk(s', s'.workers[v]) {
      assert PhaseOk(s, s.workers[v]);
    }
    forall k | k in s'.rows ensures RowOk(k, s'.rows[k]) && StampOk(s', s'.rows[k]) {
      if k != id {
        assert StampOk(s, s.rows[k]);
      }
    }
  }

  lemma SweepKeepsInv(s: State, step: Step)
    requires Inv(s) && Enabled(s, step) && (step.Confirm? || step.Reject? || step.Deactivate? || step.MarkUnreviewed?)
    ensures Inv(Next(s, step))
  {
    assert RowOk(step.id, s.rows[step.id]) && StampOk(s, s.rows[step.id]);
    RowKeepsInv(s, Next(s, step), step.id, None);
  }

  lemma UpdateKeepsInv(s: State, w: WorkerId)
    requires Inv(s) && Enabled(s, Update(w))
    ensures Inv(Next(s, Update(w)))
  {
    var Ready(req, seen, keep, merged) := s.workers[w];
    var id := seen.value;
    assert PhaseOk(s, s.workers[w]) && RowOk(id, s.rows[id]) && StampOk(s, s.rows[id]);
    MergeStamp(s.rows[id].kind.detectors, req.detector);
    RowKeepsInv(s, Next(s, Update(w)), id, Some(w));
  }

  lemma StaleKeepsInv(s: State, w: WorkerId, id: RuleId)
    requires Inv(s) && Enabled(s, StaleUpdate(w, id))
    ensures Inv(Next(s, StaleUpdate(w, id)))
  {
    var Ready(req, _, keep, merged) := s.workers[w];
    assert PhaseOk(s, s.workers[w]) && RowOk(id, s.rows[id]);
    NothingMentioned();
    MergeStamp("", req.detector);
    RowKeepsInv(s, Next(s, StaleUpdate(w, id)), id, Some(w));
  }

  lemma InsertKeepsInv(s: State, w: WorkerId, id: RuleId)
    requires Inv(s) && Enabled(s, Insert(w, id))
    ensures Inv(Next(s, Insert(w, id)))
  {
    var s' := Next(s, Insert(w, id));
    var req := s.workers[w].req;
    assert PhaseOk(s, s.workers[w]);
    NothingMentioned();
    MergeStamp("", req.detector);
    assert HasKey(s'.rows[id], req.key);
    forall v | v in s'.workers ensures PhaseOk(s', s'.workers[v]) {
      assert PhaseOk(s, s.workers[v]);
    }
    forall k | k in s'.rows ensures RowOk(k, s'.rows[k]) && StampOk(s', s'.rows[k]) {
      if k != id {
        assert StampOk(s, s.rows[k]);
      }
    }
  }

  lemma DeleteKeepsInv(s: State, id: RuleId)
    requires Inv(s) && Enabled(s, Delete(id))
    ensures Inv(Next(s, Delete(id)))
  {
    var s' := Next(s, Delete(id));
    forall v | v in s'.workers ensures PhaseOk(s', s'.workers[v]) {
      assert PhaseOk(s, s.workers[v]);
    }
    forall k | k in s'.rows ensures RowOk(k, s'.rows[k]) && StampOk(s', s'.rows[k]) {
      assert StampOk(s, s.rows[k]);
    }
  }

  lemma ReadKeepsInv(s: State, step: Step)
    requires Inv(s) && Enabled(s, step) && (step.Read? || step.Reread? || step.Conflict?)
    ensures Inv(Next(s, step))
  {
    assert PhaseOk(s, s.workers[step.w]);
    WorkerKeepsInv(s, Next(s, step), step.w);
  }

  lemma AskKeepsInv(s: State, step: Step)
    requires Inv(s) && Enabled(s, step) && (step.Cross? || step.Ask?)
    ensures Inv(Next(s, step))
  {
    if step.Cross? && AlreadyChallenged(s, step.req.key.pattern) {
      var id :| id in s.rows && HasKey(s.rows[id], AutoKey(Cidr, step.req.key.pattern, Challenge)) && Mentions(s.rows[id].kind.detectors, UNSOLVED);
      assert StampOk(s, s.rows[id]);
    }
    WorkerKeepsInv(s, Next(s, step), step.w);
  }

  /** Nothing in it depends on the clock or on what a prune has selected. */
  lemma ClockKeepsInv(s: State, s': State)
    requires Inv(s) && s'.rows == s.rows && s'.workers == s.workers && s'.challenged == s.challenged
    ensures Inv(s')
  {
    forall v | v in s.workers ensures PhaseOk(s', s.workers[v]) {
      assert PhaseOk(s, s.workers[v]);
    }
    forall k | k in s.rows ensures RowOk(k, s.rows[k]) && StampOk(s', s.rows[k]) {
      assert StampOk(s, s.rows[k]);
    }
  }

  lemma StepKeepsInv(s: State, step: Step)
    requires Inv(s) && Enabled(s, step)
    ensures Inv(Next(s, step))
  {
    match step {
      case Tick(_) => ClockKeepsInv(s, Next(s, step));
      case Select(_, _) => ClockKeepsInv(s, Next(s, step));
      case Cross(_, _) => AskKeepsInv(s, step);
      case Ask(_, _) => AskKeepsInv(s, step);
      case Read(_, _) => ReadKeepsInv(s, step);
      case Reread(_, _) => ReadKeepsInv(s, step);
      case Conflict(_) => ReadKeepsInv(s, step);
      case Update(w) => UpdateKeepsInv(s, w);
      case Insert(w, id) => InsertKeepsInv(s, w, id);
      case StaleUpdate(w, id) => StaleKeepsInv(s, w, id);
      case Delete(id) => DeleteKeepsInv(s, id);
      case _ => SweepKeepsInv(s, step);
    }
  }

  /***** Runs *****/

  ghost predicate IsRun(t: seq<State>, steps: seq<Step>) {
    && |t| == |steps| + 1
    && forall i :: 0 <= i < |steps| ==> Enabled(t[i], steps[i]) && t[i + 1] == Next(t[i], steps[i])
  }

  /** No auto rules yet: only rows an operator or the feed made. */
  ghost predicate Init(s: State) {
    && s.challenged == {} && s.doomed == {}
    && (forall w :: w in s.workers ==> s.workers[w].Idle?)
    && (forall id :: id in s.rows ==>
          var r := s.rows[id];
          r.id == id && r.source != Auto && r.kind.BlockKind? && r.kind.review == NotApplicable && r.kind.detectors == "")
  }

  lemma {:induction false} RunKeepsInv(t: seq<State>, steps: seq<Step>, i: nat)
    requires IsRun(t, steps) && Init(t[0]) && i <= |steps|
    ensures Inv(t[i])
  {
    if i == 0 {
      NothingMentioned();
    } else {
      RunKeepsInv(t, steps, i - 1);
      StepKeepsInv(t[i - 1], steps[i - 1]);
    }
  }

  /** In every reachable state, whoever raced whom: one auto row a key, the
      review states mean what they say, and every subnet row stamped by the
      unsolved-challenge detector, BLOCK rows included, is of a subnet whose
      CHALLENGE row that detector has written; StampHasCrossing names the steps. */
  lemma ReachableStates(t: seq<State>, steps: seq<Step>, i: nat)
    requires IsRun(t, steps) && Init(t[0]) && i <= |steps|
    ensures UniqueKeys(t[i])
    ensures forall id :: id in t[i].rows ==> RowOk(id, t[i].rows[id]) && StampOk(t[i], t[i].rows[id])
  {
    RunKeepsInv(t, steps, i);
  }

  /***** Decisions *****/

  /** The two writes no guard reaches: a stale update of the row, and a delete of
      what was selected earlier. */
  predicate Loses(step: Step, id: RuleId) {
    step == Delete(id) || (step.StaleUpdate? && step.id == id)
  }

  ghost predicate Decided(s: State, id: RuleId) { id in s.rows && IsDecided(s.rows[id]) }

  predicate SameDecision(a: Rule, b: Rule)
    requires a.kind.BlockKind? && b.kind.BlockKind?
  {
    a.isActive == b.isActive && a.kind.review == b.kind.review
  }

  predicate WritesRow(s: State, step: Step, id: RuleId) {
    step.Update? && step.w in s.workers && s.workers[step.w].Ready? && s.workers[step.w].seen == Some(id)
  }

  /** One step at one row, the operator's own and those two apart, on the ordinary
      path and on the lost-insert path: the row stays, a decision stays with it,
      and its detectors gain exactly the one that wrote it. */
  lemma StepKeepsDecision(s: State, step: Step, id: RuleId)
    requires Inv(s) && Enabled(s, step) && id in s.rows && !IsOperator(step, id) && !Loses(step, id)
    ensures id in Next(s, step).rows && Next(s, step).rows[id].kind.BlockKind?
    ensures IsDecided(s.rows[id]) ==> SameDecision(Next(s, step).rows[id], s.rows[id])
    ensures Parsed(Next(s, step).rows[id].kind.detectors) ==
              Parsed(s.rows[id].kind.detectors) + if WritesRow(s, step, id) then {s.workers[step.w].req.detector} else {}
  {
    assert RowOk(id, s.rows[id]);
    if WritesRow(s, step, id) {
      assert PhaseOk(s, s.workers[step.w]);
      MergePlain(s.rows[id].kind.detectors, s.workers[step.w].req.detector);
    }
  }

  /** Only the operator decides. */
  lemma StepDecidesNothing(s: State, step: Step, id: RuleId)
    requires Inv(s) && Enabled(s, step) && !IsOperator(step, id)
    requires Loses(step, id) || !Decided(s, id)
    ensures !Decided(Next(s, step), id)
  {
    if WritesRow(s, step, id) {
      assert PhaseOk(s, s.workers[step.w]);
    }
    if step.StaleUpdate? {
      assert PhaseOk(s, s.workers[step.w]);
    }
  }

  ghost predicate OperatorAway(steps: seq<Step>, i: nat, j: nat, id: RuleId)
    requires i <= j <= |steps|
  {
    forall k | i <= k < j :: !IsOperator(steps[k], id)
  }

  ghost predicate NothingLoses(steps: seq<Step>, i: nat, j: nat, id: RuleId)
    requires i <= j <= |steps|
  {
    forall k | i <= k < j :: !Loses(steps[k], id)
  }

  lemma {:induction false} DecisionKept(t: seq<State>, steps: seq<Step>, i: nat, j: nat, id: RuleId)
    requires IsRun(t, steps) && Init(t[0]) && i <= j <= |steps|
    requires Decided(t[i], id) && OperatorAway(steps, i, j, id) && NothingLoses(steps, i, j, id)
    ensures Decided(t[j], id) && SameDecision(t[j].rows[id], t[i].rows[id])
    ensures Parsed(t[i].rows[id].kind.detectors) <= Parsed(t[j].rows[id].kind.detectors)
  {
    if i < j {
      DecisionKept(t, steps, i, j - 1, id);
      RunKeepsInv(t, steps, j - 1);
      assert !Loses(steps[j - 1], id) && !IsOperator(steps[j - 1], id);
      StepKeepsDecision(t[j - 1], steps[j - 1], id);
      assert t[j] == Next(t[j - 1], steps[j - 1]);
    }
  }

  lemma {:induction false} StaysUndecided(t: seq<State>, steps: seq<Step>, i: nat, j: nat, id: RuleId)
    requires IsRun(t, steps) && Init(t[0]) && i <= j <= |steps|
    requires !Decided(t[i], id) && OperatorAway(steps, i, j, id)
    ensures !Decided(t[j], id)
  {
    if i < j {
      StaysUndecided(t, steps, i, j - 1, id);
      RunKeepsInv(t, steps, j - 1);
      assert !IsOperator(steps[j - 1], id);
      StepDecidesNothing(t[j - 1], steps[j - 1], id);
    }
  }

  /**
   * Over whole runs, while the operator is away: a decision stands exactly as
   * long as neither a stale update of that row nor a delete of it happens. While
   * it stands, review and activity are what the operator left and no detector is
   * lost; once it is lost nothing but the operator brings it back.
   */
  lemma DecisionsStand(t: seq<State>, steps: seq<Step>, i: nat, j: nat, id: RuleId)
    requires IsRun(t, steps) && Init(t[0]) && i <= j <= |steps|
    requires Decided(t[i], id) && OperatorAway(steps, i, j, id)
    ensures Decided(t[j], id) <==> NothingLoses(steps, i, j, id)
    ensures Decided(t[j], id) ==>
              && SameDecision(t[j].rows[id], t[i].rows[id])
              && Parsed(t[i].rows[id].kind.detectors) <= Parsed(t[j].rows[id].kind.detectors)
  {
    if NothingLoses(steps, i, j, id) {
      DecisionKept(t, steps, i, j, id);
    } else {
      var k :| i <= k < j && Loses(steps[k], id);
      RunKeepsInv(t, steps, k);
      assert !IsOperator(steps[k], id);
      StepDecidesNothing(t[k], steps[k], id);
      StaysUndecided(t, steps, k + 1, j, id);
    }
  }

  /***** What the operator's two acts do *****/

  /** The row a confirmation leaves, on its columns. */
  ghost predicate IsConfirmed(was: Rule, r: Rule)
    requires was.kind.BlockKind?
  {
    && r.kind.BlockKind? && r.kind.review == Confirmed
    && r.isActive && r.source == Admin && r.expiresAt == None
    && r.id == was.id && r.ruleType == was.ruleType && r.matchType == was.matchType && r.pattern == was.pattern
    && r.order == was.order && r.confidence == was.confidence && r.reporters == was.reporters
    && r.kind.action == was.kind.action && r.kind.detectors == was.kind.detectors
  }

  /** A prune selects the row. */
  predicate Picks(step: Step, id: RuleId) { step.Select? && step.id == id }

  lemma ConfirmConfirms(s: State, s': State, id: RuleId)
    requires Inv(s) && Enabled(s, Confirm(id)) && s' == Next(s, Confirm(id))
    ensures id in s.rows && s.rows[id].kind.BlockKind? && id in s'.rows && IsConfirmed(s.rows[id], s'.rows[id])
    ensures s'.doomed == s.doomed
  {
    assert RowOk(id, s.rows[id]);
  }

  /** A confirmed row is beyond the detectors and the tasks: no step but the
      operator's or a delete of it changes a column of it, and no prune selects it. */
  lemma ConfirmedIsLeftAlone(s: State, s': State, step: Step, id: RuleId)
    requires Inv(s) && Enabled(s, step) && s' == Next(s, step)
    requires id in s.rows && s.rows[id].kind.BlockKind? && s.rows[id].kind.review == Confirmed
    requires !IsOperator(step, id) && step != Delete(id)
    ensures id in s'.rows && s'.rows[id] == s.rows[id]
    ensures !Picks(step, id) && !Loses(step, id) && (id in s'.doomed <==> id in s.doomed)
  {
    assert RowOk(id, s.rows[id]);
    if step.Update? {
      assert PhaseOk(s, s.workers[step.w]);
    }
  }

  /**
   * A confirmation confirms. From the step that confirms a row on, while the
   * operator stays away and no earlier prune deletes it, the row is CONFIRMED,
   * active, an ADMIN row and never expires, with every other column as it was; no
   * detector writes it, no sweep changes it and no prune selects it.
   */
  lemma ConfirmStands(t: seq<State>, steps: seq<Step>, k: nat, j: nat, id: RuleId)
    requires IsRun(t, steps) && Init(t[0]) && k < j <= |steps| && steps[k] == Confirm(id)
    requires OperatorAway(steps, k + 1, j, id) && NotDeleted(steps, k + 1, j, id)
    ensures id in t[k].rows && t[k].rows[id].kind.BlockKind? && id in t[j].rows && IsConfirmed(t[k].rows[id], t[j].rows[id])
    ensures forall m | k < m < j :: !Picks(steps[m], id) && !Loses(steps[m], id)
  {
    RunIsSound(t, steps);
    StaysConfirmed(t, steps, k, j, id);
  }

  /** A step taken from a state that satisfies the invariant. */
  ghost predicate Sound(t: seq<State>, steps: seq<Step>, i: nat)
    requires i < |steps| < |t|
  {
    Inv(t[i]) && Enabled(t[i], steps[i]) && t[i + 1] == Next(t[i], steps[i])
  }

  ghost predicate AllSound(t: seq<State>, steps: seq<Step>) {
    |t| == |steps| + 1 && forall i: nat :: i < |steps| ==> Sound(t, steps, i)
  }

  lemma RunIsSound(t: seq<State>, steps: seq<Step>)
    requires IsRun(t, steps) && Init(t[0])
    ensures AllSound(t, steps)
  {
    forall i: nat | i < |steps| ensures Sound(t, steps, i) {
      RunKeepsInv(t, steps, i);
    }
  }

  lemma {:induction false} StaysConfirmed(t: seq<State>, steps: seq<Step>, k: nat, j: nat, id: RuleId)
    requires AllSound(t, steps) && k < j <= |steps| && steps[k] == Confirm(id)
    requires OperatorAway(steps, k + 1, j, id) && NotDeleted(steps, k + 1, j, id)
    ensures id in t[k].rows && t[k].rows[id].kind.BlockKind? && id in t[j].rows && IsConfirmed(t[k].rows[id], t[j].rows[id])
    ensures forall m | k < m < j :: !Picks(steps[m], id) && !Loses(steps[m], id)
    decreases j
  {
    assert Sound(t, steps, j - 1);
    if k + 1 < j {
      StaysConfirmed(t, steps, k, j - 1, id);
      assert !IsOperator(steps[j - 1], id) && steps[j - 1] != Delete(id);
      ConfirmedIsLeftAlone(t[j - 1], t[j], steps[j - 1], id);
    } else {
      ConfirmConfirms(t[k], t[j], id);
    }
  }

  ghost predicate NotDeleted(steps: seq<Step>, i: nat, j: nat, id: RuleId)
    requires i <= j <= |steps|
  {
    forall k | i <= k < j :: steps[k] != Delete(id)
  }

  /** Unless a prune had selected it before, it is never deleted either. */
  lemma ConfirmedIsNeverDeleted(t: seq<State>, steps: seq<Step>, k: nat, j: nat, id: RuleId)
    requires IsRun(t, steps) && Init(t[0]) && k < j <= |steps| && steps[k] == Confirm(id)
    requires OperatorAway(steps, k + 1, j, id) && id !in t[k].doomed
    ensures id !in t[j].doomed && NotDeleted(steps, k + 1, j, id)
  {
    RunIsSound(t, steps);
    StaysUndoomed(t, steps, k, j, id);
  }

  lemma UndoomedStep(s: State, s': State, step: Step, id: RuleId)
    requires Inv(s) && Enabled(s, step) && s' == Next(s, step) && id !in s.doomed && !IsOperator(step, id)
    requires id in s.rows && s.rows[id].kind.BlockKind? && s.rows[id].kind.review == Confirmed
    ensures step != Delete(id) && id !in s'.doomed
  {
    assert step != Delete(id);
    ConfirmedIsLeftAlone(s, s', step, id);
  }

  lemma {:induction false} StaysUndoomed(t: seq<State>, steps: seq<Step>, k: nat, j: nat, id: RuleId)
    requires AllSound(t, steps) && k < j <= |steps| && steps[k] == Confirm(id)
    requires OperatorAway(steps, k + 1, j, id) && id !in t[k].doomed
    ensures id !in t[j].doomed && NotDeleted(steps, k + 1, j, id)
    decreases j
  {
    assert Sound(t, steps, j - 1);
    if k + 1 < j {
      StaysUndoomed(t, steps, k, j - 1, id);
      StaysConfirmed(t, steps, k, j - 1, id);
      assert !IsOperator(steps[j - 1], id);
      UndoomedStep(t[j - 1], t[j], steps[j - 1], id);
    } else {
      ConfirmConfirms(t[k], t[j], id);
    }
  }

  /** A rejection rejects: from its step on, while the operator stays away and
      neither loss hits the row, it is REJECTED and inactive, of the same key and
      source, loses no detector, and no prune selects it. */
  lemma RejectStands(t: seq<State>, steps: seq<Step>, k: nat, j: nat, id: RuleId)
    requires IsRun(t, steps) && Init(t[0]) && k < j <= |steps| && steps[k] == Reject(id)
    requires OperatorAway(steps, k + 1, j, id) && NothingLoses(steps, k + 1, j, id)
    ensures id in t[k].rows && t[k].rows[id].kind.BlockKind? && id in t[j].rows && IsRejected(t[k].rows[id], t[j].rows[id])
    ensures forall m | k < m < j :: !Picks(steps[m], id)
  {
    RunIsSound(t, steps);
    StaysRejected(t, steps, k, j, id);
  }

  lemma {:induction false} StaysRejected(t: seq<State>, steps: seq<Step>, k: nat, j: nat, id: RuleId)
    requires AllSound(t, steps) && k < j <= |steps| && steps[k] == Reject(id)
    requires OperatorAway(steps, k + 1, j, id) && NothingLoses(steps, k + 1, j, id)
    ensures id in t[k].rows && t[k].rows[id].kind.BlockKind? && id in t[j].rows && IsRejected(t[k].rows[id], t[j].rows[id])
    ensures forall m | k < m < j :: !Picks(steps[m], id)
    decreases j
  {
    assert Sound(t, steps, j - 1);
    if k + 1 < j {
      StaysRejected(t, steps, k, j - 1, id);
      assert !IsOperator(steps[j - 1], id) && !Loses(steps[j - 1], id);
      RejectedStaysRejected(t[j - 1], t[j], steps[j - 1], id, t[k].rows[id]);
    } else {
      RejectRejects(t[k], t[j], id);
    }
  }

  ghost predicate IsRejected(was: Rule, r: Rule)
    requires was.kind.BlockKind?
  {
    && r.kind.BlockKind? && r.kind.review == Rejected && !r.isActive
    && r.source == was.source && r.ruleType == was.ruleType && r.pattern == was.pattern && r.kind.action == was.kind.action
    && Parsed(was.kind.detectors) <= Parsed(r.kind.detectors)
  }

  lemma RejectRejects(s: State, s': State, id: RuleId)
    requires Inv(s) && Enabled(s, Reject(id)) && s' == Next(s, Reject(id))
    ensures id in s.rows && s.rows[id].kind.BlockKind? && id in s'.rows && IsRejected(s.rows[id], s'.rows[id])
  {
  }

  lemma RejectedStaysRejected(s: State, s': State, step: Step, id: RuleId, was: Rule)
    requires Inv(s) && Enabled(s, step) && s' == Next(s, step) && was.kind.BlockKind?
    requires id in s.rows && IsRejected(was, s.rows[id]) && !IsOperator(step, id) && !Loses(step, id)
    ensures id in s'.rows && IsRejected(was, s'.rows[id]) && !Picks(step, id)
  {
    StepKeepsDecision(s, step, id);
    KeepsKey(s, step, id);
  }

  /** What a detector's write leaves on the columns of the row it writes, whichever
      way it is written; and that it touches no other row. */
  lemma DetectorWrites(s: State, step: Step, w: WorkerId)
    requires Inv(s) && Enabled(s, step) && Writes(step, w)
    ensures var id, req := Written(s, step), s.workers[w].req;
            var r := Next(s, step).rows[id];
            && r.id == id && r.source == Auto && r.kind.BlockKind?
            && r.ruleType == req.key.ruleType && r.pattern == req.key.pattern && r.kind.action == req.key.action
            && r.matchType == req.matchType && r.confidence == req.confidence && r.expiresAt == Some(req.expiry)
            && (if step.Update? && s.rows[id].kind.review in {Confirmed, Rejected}
                then r.isActive == s.rows[id].isActive && r.kind.review == s.rows[id].kind.review
                else r.isActive == !req.quarantined && r.kind.review == (if req.quarantined then Pending else NotApplicable))
            && (if step.Insert? then r.order == 100 && r.reporters == 0 && id !in s.rows
                else r.order == s.rows[id].order && r.reporters == s.rows[id].reporters)
            && Next(s, step).rows == s.rows[id := r]
  {
    assert PhaseOk(s, s.workers[w]);
    if step.Update? {
      assert RowOk(s.workers[w].seen.value, s.rows[s.workers[w].seen.value]);
    }
  }

  /** Confirming an auto row takes it out of the key the detectors look under: the
      key is free, so whoever asks for it next reads no row, */
  lemma ConfirmFreesKey(s: State, id: RuleId, key: AutoKey)
    requires Inv(s) && Enabled(s, Confirm(id)) && HasKey(s.rows[id], key)
    ensures KeyFree(Next(s, Confirm(id)), key)
    ensures forall seen :: CanRead(Next(s, Confirm(id)), key, seen) ==> seen == None
  {
    var s' := Next(s, Confirm(id));
    forall other | other in s'.rows ensures !HasKey(s'.rows[other], key) {
      if other != id {
        assert IsAutoRow(s.rows[id]) && s'.rows[other] == s.rows[other];
      }
    }
  }

  /** and the next detection of the same thing inserts a second row beside the
      confirmed one, active or awaiting review as any new row would be. */
  lemma DetectionAfterConfirm(s: State, id: RuleId, w: WorkerId, req: Request, anew: RuleId) returns (t: seq<State>, steps: seq<Step>)
    requires Inv(s) && Enabled(s, Confirm(id)) && HasKey(s.rows[id], req.key) && w in s.workers && s.workers[w].Idle?
    requires anew !in s.rows && Enabled(Next(s, Confirm(id)), Ask(w, req))
    ensures IsRun(t, steps) && steps == [Confirm(id), Ask(w, req), Read(w, None), Insert(w, anew)] && t[0] == s
    ensures id in t[4].rows && IsConfirmed(s.rows[id], t[4].rows[id])
    ensures anew in t[4].rows && HasKey(t[4].rows[anew], req.key) && t[4].rows[anew].isActive == !req.quarantined
  {
    var s1 := Next(s, Confirm(id));
    ConfirmConfirms(s, s1, id);
    ConfirmFreesKey(s, id, req.key);
    var s2 := Next(s1, Ask(w, req));
    AsksThenReads(s1, w, req);
    var s3 := Next(s2, Read(w, None));
    var s4 := InsertsBeside(s3, w, req, anew, id);
    steps := [Confirm(id), Ask(w, req), Read(w, None), Insert(w, anew)];
    FourSteps(s, s1, s2, s3, s4, steps);
    t := [s, s1, s2, s3, s4];
  }

  lemma FourSteps(s: State, s1: State, s2: State, s3: State, s4: State, steps: seq<Step>)
    requires |steps| == 4
    requires Enabled(s, steps[0]) && s1 == Next(s, steps[0]) && Enabled(s1, steps[1]) && s2 == Next(s1, steps[1])
    requires Enabled(s2, steps[2]) && s3 == Next(s2, steps[2]) && Enabled(s3, steps[3]) && s4 == Next(s3, steps[3])
    ensures IsRun([s, s1, s2, s3, s4], steps)
  {
  }

  lemma InsertsBeside(s: State, w: WorkerId, req: Request, anew: RuleId, id: RuleId) returns (s': State)
    requires w in s.workers && s.workers[w] == Ready(req, None, false, Merge("", req.detector)) && KeyFree(s, req.key)
    requires anew !in s.rows && id in s.rows
    ensures Enabled(s, Insert(w, anew)) && s' == Next(s, Insert(w, anew))
    ensures id in s'.rows && s'.rows[id] == s.rows[id]
    ensures anew in s'.rows && HasKey(s'.rows[anew], req.key) && s'.rows[anew].isActive == !req.quarantined
  {
    s' := Next(s, Insert(w, anew));
  }

  lemma AsksThenReads(s: State, w: WorkerId, req: Request)
    requires Enabled(s, Ask(w, req)) && KeyFree(s, req.key)
    ensures Enabled(Next(s, Ask(w, req)), Read(w, None))
    ensures var s' := Next(Next(s, Ask(w, req)), Read(w, None));
            s'.rows == s.rows && w in s'.workers && s'.workers[w] == Ready(req, None, false, Merge("", req.detector)) && KeyFree(s', req.key)
  {
  }

  /** What a crossing asks for, on the columns: BLOCK exactly when the table has an
      active auto CHALLENGE row of that subnet with the detector's stamp. */
  lemma CrossingAsksIff(s: State, w: WorkerId, req: Request)
    requires Enabled(s, Cross(w, req))
    ensures var p := Next(s, Cross(w, req)).workers[w];
            && p == Wants(req.(key := p.req.key))
            && p.req.key.ruleType == Cidr && p.req.key.pattern == req.key.pattern
            && (p.req.key.action == Block || p.req.key.action == Challenge)
            && (p.req.key.action == Block <==>
                  exists id :: && id in s.rows && s.rows[id].source == Auto && s.rows[id].isActive && s.rows[id].ruleType == Cidr
                               && s.rows[id].pattern == req.key.pattern && s.rows[id].kind.BlockKind? && s.rows[id].kind.action == Challenge
                               && UNSOLVED in Split(s.rows[id].kind.detectors, ','))
  {
    if AlreadyChallenged(s, req.key.pattern) {
      var id :| id in s.rows && HasKey(s.rows[id], AutoKey(Cidr, req.key.pattern, Challenge)) && s.rows[id].isActive
                && Mentions(s.rows[id].kind.detectors, UNSOLVED);
      assert UNSOLVED in Split(s.rows[id].kind.detectors, ',');
    }
    if id :| && id in s.rows && s.rows[id].source == Auto && s.rows[id].isActive && s.rows[id].ruleType == Cidr
             && s.rows[id].pattern == req.key.pattern && s.rows[id].kind.BlockKind? && s.rows[id].kind.action == Challenge
             && UNSOLVED in Split(s.rows[id].kind.detectors, ',') {
      assert HasKey(s.rows[id], AutoKey(Cidr, req.key.pattern, Challenge)) && Mentions(s.rows[id].kind.detectors, UNSOLVED);
    }
  }

  /***** When a decision is safe *****/

  /** A worker that read no row for this row's key and has not written yet. */
  ghost predicate HasStaleWriter(s: State, id: RuleId) {
    && id in s.rows
    && exists w :: w in s.workers && s.workers[w].Ready? && s.workers[w].seen.None? && HasKey(s.rows[id], s.workers[w].req.key)
  }

  /** The row can still be lost: selected by a prune, or about to be written by
      someone who did not see it. */
  ghost predicate AtRisk(s: State, id: RuleId) { id in s.doomed || HasStaleWriter(s, id) }

  /** Nobody can come to be in that position once the row is there and decided. */
  lemma StepKeepsSafe(s: State, step: Step, id: RuleId)
    requires Inv(s) && Enabled(s, step) && Decided(s, id) && !AtRisk(s, id) && !IsOperator(step, id)
    ensures !Loses(step, id) && !AtRisk(Next(s, step), id)
  {
    assert !Loses(step, id);
    StepKeepsDecision(s, step, id);
    KeepsKey(s, step, id);
  }

  /** No step but a confirmation changes whose row it is or its key. */
  lemma KeepsKey(s: State, step: Step, id: RuleId)
    requires Inv(s) && Enabled(s, step) && id in s.rows && !IsOperator(step, id) && id in Next(s, step).rows
    ensures Next(s, step).rows[id].kind.BlockKind?
    ensures Next(s, step).rows[id].source == s.rows[id].source && KeyOf(Next(s, step).rows[id]) == KeyOf(s.rows[id])
  {
    assert RowOk(id, s.rows[id]);
  }

  lemma {:induction false} StaysSafe(t: seq<State>, steps: seq<Step>, i: nat, j: nat, id: RuleId)
    requires IsRun(t, steps) && Init(t[0]) && i <= j <= |steps|
    requires Decided(t[i], id) && !AtRisk(t[i], id) && OperatorAway(steps, i, j, id)
    ensures NothingLoses(steps, i, j, id) && Decided(t[j], id) && !AtRisk(t[j], id)
  {
    if i < j {
      StaysSafe(t, steps, i, j - 1, id);
      RunKeepsInv(t, steps, j - 1);
      assert !IsOperator(steps[j - 1], id);
      StepKeepsSafe(t[j - 1], steps[j - 1], id);
      DecisionKept(t, steps, i, j, id);
    }
  }

  /** From a state in which nobody is at it, a decision stands in every run. */
  lemma SafeDecisionsStand(t: seq<State>, steps: seq<Step>, i: nat, j: nat, id: RuleId)
    requires IsRun(t, steps) && Init(t[0]) && i <= j <= |steps|
    requires Decided(t[i], id) && !AtRisk(t[i], id) && OperatorAway(steps, i, j, id)
    ensures Decided(t[j], id) && SameDecision(t[j].rows[id], t[i].rows[id])
    ensures Parsed(t[i].rows[id].kind.detectors) <= Parsed(t[j].rows[id].kind.detectors)
  {
    StaysSafe(t, steps, i, j, id);
    DecisionKept(t, steps, i, j, id);
  }

  /** And from every other state some continuation without the operator loses it:
      at once, or after the worker that holds the row's lock has written. */
  lemma RiskyDecisionsCanBeLost(s: State, id: RuleId) returns (t: seq<State>, steps: seq<Step>)
    requires Inv(s) && Decided(s, id) && AtRisk(s, id)
    ensures IsRun(t, steps) && t[0] == s && OperatorAway(steps, 0, |steps|, id)
    ensures !Decided(t[|steps|], id)
  {
    if Locked(s, id) {
      var w :| w in s.workers && s.workers[w].Ready? && s.workers[w].seen == Some(id);
      var s' := Next(s, Update(w));
      Unlocks(s, w, id);
      var loss := LosingStep(s', id);
      t, steps := [s, s', Next(s', loss)], [Update(w), loss];
    } else {
      var loss := LosingStep(s, id);
      t, steps := [s, Next(s, loss)], [loss];
    }
  }

  lemma LosingStep(s: State, id: RuleId) returns (loss: Step)
    requires Inv(s) && Decided(s, id) && AtRisk(s, id) && !Locked(s, id)
    ensures Enabled(s, loss) && Loses(loss, id) && !IsOperator(loss, id) && !Decided(Next(s, loss), id)
  {
    if id in s.doomed {
      loss := Delete(id);
    } else {
      var w :| w in s.workers && s.workers[w].Ready? && s.workers[w].seen.None? && HasKey(s.rows[id], s.workers[w].req.key);
      loss := StaleUpdate(w, id);
    }
    StepDecidesNothing(s, loss, id);
  }

  /** The holder of a decided row writes and lets go; the risk stays. */
  lemma Unlocks(s: State, w: WorkerId, id: RuleId)
    requires Inv(s) && Decided(s, id) && AtRisk(s, id)
    requires w in s.workers && s.workers[w].Ready? && s.workers[w].seen == Some(id)
    ensures Enabled(s, Update(w))
    ensures var s' := Next(s, Update(w)); Inv(s') && Decided(s', id) && AtRisk(s', id) && !Locked(s', id)
  {
    assert PhaseOk(s, s.workers[w]);
    var s' := Next(s, Update(w));
    StepKeepsInv(s, Update(w));
    StepKeepsDecision(s, Update(w), id);
    KeepsKey(s, Update(w), id);
    if id !in s.doomed {
      var v :| v in s.workers && s.workers[v].Ready? && s.workers[v].seen.None? && HasKey(s.rows[id], s.workers[v].req.key);
      assert v in s'.workers && s'.workers[v] == s.workers[v] && HasKey(s'.rows[id], s'.workers[v].req.key);
    }
  }

  /**
   * What the stale write loses, exactly. The merge is exact if and only if the
   * row had no other detector; review state and activity survive if and only if
   * they were what a new row would have been given, which a decision never is.
   */
  lemma StaleUpdateLosesExactly(s: State, w: WorkerId, id: RuleId)
    requires Inv(s) && Enabled(s, StaleUpdate(w, id))
    ensures var req, was, now := s.workers[w].req, s.rows[id], Next(s, StaleUpdate(w, id)).rows[id];
            && (Parsed(now.kind.detectors) == Parsed(was.kind.detectors) + {req.detector} <==> Parsed(was.kind.detectors) <= {req.detector})
            && (SameDecision(now, was) <==> was.isActive == !req.quarantined && was.kind.review == CreateReview(req))
            && (IsDecided(was) ==> now.kind.review != was.kind.review)
  {
    assert PhaseOk(s, s.workers[w]) && RowOk(id, s.rows[id]);
    var req := s.workers[w].req;
    MergePlain("", req.detector);
    assert Parsed("") == {} by { assert Split("", ',') == [""]; }
  }

  lemma RunsConcat(t: seq<State>, a: seq<Step>, u: seq<State>, b: seq<Step>)
    requires IsRun(t, a) && IsRun(u, b) && t[|a|] == u[0]
    ensures IsRun(t + u[1..], a + b) && (t + u[1..])[|a + b|] == u[|b|]
  {
    var w := t + u[1..];
    forall i | 0 <= i < |a + b| ensures Enabled(w[i], (a + b)[i]) && w[i + 1] == Next(w[i], (a + b)[i]) {
      if i >= |a| {
        assert w[i] == u[i - |a|] && w[i + 1] == u[i + 1 - |a|] && (a + b)[i] == b[i - |a|];
      }
    }
  }

  predicate Plain(req: Request) {
    req.detector != "" && Without(req.detector, ',') && req.detector != UNSOLVED && !req.quarantined
  }

  function ReadyNew(req: Request): Phase { Ready(req, None, false, Merge("", req.detector)) }

  /** A detector asks for a rule and finds no row. */
  lemma ReadsNothing(s: State, w: WorkerId, req: Request) returns (t: seq<State>, steps: seq<Step>)
    requires Plain(req) && s.rows == map[] && w in s.workers && s.workers[w].Idle?
    ensures IsRun(t, steps) && |steps| == 2 && t[0] == s && t[2] == s.(workers := s.workers[w := ReadyNew(req)])
  {
    var s1, s2 := s.(workers := s.workers[w := Wants(req)]), s.(workers := s.workers[w := ReadyNew(req)]);
    t, steps := [s, s1, s2], [Ask(w, req), Read(w, None)];
    assert Enabled(s1, Read(w, None)) && Next(s1, Read(w, None)) == s2;
  }

  /** It inserts the row. */
  lemma InsertsFirst(s: State, w: WorkerId, req: Request, id: RuleId)
    requires Plain(req) && s.rows == map[] && w in s.workers && s.workers[w] == ReadyNew(req)
    ensures Enabled(s, Insert(w, id))
    ensures Next(s, Insert(w, id)) == s.(rows := map[id := Inserted(req, id)], workers := s.workers[w := Idle])
  {
  }

  /** The operator rejects the row, and somebody who has not seen it writes it. */
  lemma RejectThenStale(s: State, w: WorkerId, req: Request, id: RuleId) returns (t: seq<State>)
    requires Plain(req) && s.rows == map[id := Inserted(req, id)] && w in s.workers && s.workers[w] == ReadyNew(req)
    requires NobodyHolds(s)
    ensures IsRun(t, [Reject(id), StaleUpdate(w, id)]) && t[0] == s
    ensures Decided(t[1], id) && t[1].rows[id].kind.review == Rejected && !t[1].rows[id].isActive
    ensures id in t[2].rows && t[2].rows[id].kind.BlockKind? && t[2].rows[id].kind.review == NotApplicable && t[2].rows[id].isActive
  {
    var s1 := Next(s, Reject(id));
    t := [s, s1, Next(s1, StaleUpdate(w, id))];
  }

  /** The moment a rule is old enough for a prune that keeps `days` days. */
  function Overdue(req: Request, days: nat): Time { req.expiry + days * MICROS_PER_DAY + 1 }

  /** Time passes, the expired row is swept, and a prune selects it; */
  lemma SweepThenSelect(s: State, req: Request, id: RuleId, days: nat) returns (t: seq<State>)
    requires Plain(req) && s.rows == map[id := Inserted(req, id)] && s.now < req.expiry && NobodyHolds(s)
    ensures IsRun(t, [Tick(Overdue(req, days)), Deactivate(id), Select(id, days)]) && t[0] == s
    ensures t[3] == s.(now := Overdue(req, days), rows := map[id := Inserted(req, id).(isActive := false)], doomed := s.doomed + {id})
  {
    var s1 := s.(now := Overdue(req, days));
    var s2 := s1.(rows := map[id := Inserted(req, id).(isActive := false)]);
    assert Next(s1, Deactivate(id)) == s2;
    t := [s, s1, s2, s2.(doomed := s.doomed + {id})];
  }

  /** it is rejected and deleted. */
  lemma RejectThenDelete(s: State, id: RuleId) returns (t: seq<State>)
    requires id in s.rows && s.rows[id].kind.BlockKind? && id in s.doomed && NobodyHolds(s)
    ensures IsRun(t, [Reject(id), Delete(id)]) && t[0] == s
    ensures Decided(t[1], id) && id !in t[2].rows
  {
    var s1 := Next(s, Reject(id));
    t := [s, s1, Next(s1, Delete(id))];
  }

  ghost predicate NobodyHolds(s: State) { forall w :: w in s.workers ==> !Holds(s.workers[w]) }

  /**
   * Both losses happen. Two detectors ask for one rule and both read no row; one
   * inserts it, the operator rejects it, and the other's write makes it active
   * and unreviewed again.
   */
  lemma StaleWriteUndoesReject(req: Request, now: Time, id: RuleId) returns (t: seq<State>, steps: seq<Step>)
    requires Plain(req)
    ensures IsRun(t, steps) && Init(t[0]) && |steps| == 7 && steps[5] == Reject(id) && OperatorAway(steps, 6, 7, id)
    ensures Decided(t[6], id) && t[6].rows[id].kind.review == Rejected && !t[6].rows[id].isActive
    ensures id in t[7].rows && t[7].rows[id].kind.BlockKind? && t[7].rows[id].kind.review == NotApplicable && t[7].rows[id].isActive
  {
    var start := State(now, map[], map["a" := Idle, "b" := Idle], {}, {});
    var t1, steps1 := ReadsNothing(start, "a", req);
    var t2, steps2 := ReadsNothing(t1[2], "b", req);
    RunsConcat(t1, steps1, t2, steps2);
    InsertsFirst(t2[2], "a", req, id);
    var inserted := Next(t2[2], Insert("a", id));
    RunsConcat(t1 + t2[1..], steps1 + steps2, [t2[2], inserted], [Insert("a", id)]);
    var t3 := RejectThenStale(inserted, "b", req, id);
    t, steps := t1 + t2[1..] + [inserted], steps1 + steps2 + [Insert("a", id)];
    assert [t2[2], inserted][1..] == [inserted];
    RunsConcat(t, steps, t3, [Reject(id), StaleUpdate("b", id)]);
    t, steps := t + t3[1..], steps + [Reject(id), StaleUpdate("b", id)];
  }

  /** For any retention: a rule is inserted before its expiry and left to expire, a
      prune selects it, the operator rejects it, and the prune deletes it. */
  lemma PruneTakesReject(req: Request, now: Time, days: nat, id: RuleId) returns (t: seq<State>, steps: seq<Step>)
    requires Plain(req) && now < req.expiry
    ensures IsRun(t, steps) && Init(t[0]) && t[0].now == now && |steps| == 8
    ensures steps[5] == Select(id, days) && steps[6] == Reject(id) && steps[7] == Delete(id)
    ensures Decided(t[7], id) && id !in t[8].rows
  {
    t, steps := InsertsAlone(req, now, id);
    var t2 := SweepThenSelect(t[3], req, id, days);
    var wait := [Tick(Overdue(req, days)), Deactivate(id), Select(id, days)];
    var t3 := RejectThenDelete(t2[3], id);
    RunsConcat(t2, wait, t3, [Reject(id), Delete(id)]);
    RunsConcat(t, steps, t2 + t3[1..], wait + [Reject(id), Delete(id)]);
    t, steps := t + (t2 + t3[1..])[1..], steps + (wait + [Reject(id), Delete(id)]);
  }

  /** One detector asks for a rule, finds none and inserts it. */
  lemma InsertsAlone(req: Request, now: Time, id: RuleId) returns (t: seq<State>, steps: seq<Step>)
    requires Plain(req)
    ensures IsRun(t, steps) && |steps| == 3 && Init(t[0]) && t[0].now == now
    ensures t[3] == State(now, map[id := Inserted(req, id)], map["a" := Idle], {}, {})
  {
    var start := State(now, map[], map["a" := Idle], {}, {});
    t, steps := ReadsNothing(start, "a", req);
    var ready := t[2];
    InsertsFirst(ready, "a", req, id);
    var inserted := Next(ready, Insert("a", id));
    RunsConcat(t, steps, [ready, inserted], [Insert("a", id)]);
    assert [ready, inserted][1..] == [inserted];
    t, steps := t + [inserted], steps + [Insert("a", id)];
  }

  /***** The lost insert *****/

  /** A detector whose insert loses to another's goes back, reads the row that won
      and merges into it: the row keeps its decision, and has gained exactly the
      loser's name. */
  lemma LoserMerges(s: State, w: WorkerId, id: RuleId) returns (t: seq<State>)
    requires Inv(s) && Enabled(s, Conflict(w)) && id in s.rows && HasKey(s.rows[id], s.workers[w].req.key) && !Locked(s, id)
    ensures IsRun(t, [Conflict(w), Reread(w, Some(id)), Update(w)]) && t[0] == s
    ensures id in t[3].rows && HasKey(t[3].rows[id], s.workers[w].req.key)
    ensures Parsed(t[3].rows[id].kind.detectors) == Parsed(s.rows[id].kind.detectors) + {s.workers[w].req.detector}
    ensures IsDecided(s.rows[id]) ==> SameDecision(t[3].rows[id], s.rows[id])
    ensures w in t[3].workers && t[3].workers[w].Idle?
  {
    var s1 := LosesInsert(s, w);
    StepKeepsInv(s, Conflict(w));
    var s2 := RereadsWinner(s1, w, id);
    StepKeepsInv(s1, Reread(w, Some(id)));
    var s3 := UpdatesWinner(s2, w, id);
    t := [s, s1, s2, s3];
    ThreeSteps(s, s1, s2, s3, [Conflict(w), Reread(w, Some(id)), Update(w)]);
  }

  lemma ThreeSteps(s: State, s1: State, s2: State, s3: State, steps: seq<Step>)
    requires |steps| == 3 && Enabled(s, steps[0]) && s1 == Next(s, steps[0])
    requires Enabled(s1, steps[1]) && s2 == Next(s1, steps[1]) && Enabled(s2, steps[2]) && s3 == Next(s2, steps[2])
    ensures IsRun([s, s1, s2, s3], steps)
  {
  }

  lemma UpdatesWinner(s: State, w: WorkerId, id: RuleId) returns (s': State)
    requires Inv(s) && w in s.workers && s.workers[w].Ready? && s.workers[w].seen == Some(id)
    ensures Enabled(s, Update(w)) && s' == Next(s, Update(w))
    ensures id in s.rows && s.rows[id].kind.BlockKind? && id in s'.rows && HasKey(s'.rows[id], s.workers[w].req.key)
    ensures Parsed(s'.rows[id].kind.detectors) == Parsed(s.rows[id].kind.detectors) + {s.workers[w].req.detector}
    ensures IsDecided(s.rows[id]) ==> SameDecision(s'.rows[id], s.rows[id])
    ensures w in s'.workers && s'.workers[w].Idle?
  {
    assert PhaseOk(s, s.workers[w]) && HasRow(s, id);
    s' := Next(s, Update(w));
    StepKeepsDecision(s, Update(w), id);
    WriteLeavesStamp(s, Update(w), w);
  }

  lemma LosesInsert(s: State, w: WorkerId) returns (s': State)
    requires Enabled(s, Conflict(w))
    ensures s' == Next(s, Conflict(w)) && s'.rows == s.rows && w in s'.workers && s'.workers[w] == Lost(s.workers[w].req)
    ensures forall id :: Locked(s', id) ==> Locked(s, id)
  {
    s' := Next(s, Conflict(w));
    forall id | Locked(s', id) ensures Locked(s, id) {
      var v :| v in s'.workers && s'.workers[v].Ready? && s'.workers[v].seen == Some(id);
      assert v in s.workers && s.workers[v].Ready? && s.workers[v].seen == Some(id);
    }
  }

  lemma RereadsWinner(s: State, w: WorkerId, id: RuleId) returns (s': State)
    requires Inv(s) && w in s.workers && s.workers[w].Lost? && id in s.rows && HasKey(s.rows[id], s.workers[w].req.key) && !Locked(s, id)
    ensures Enabled(s, Reread(w, Some(id))) && s' == Next(s, Reread(w, Some(id))) && s'.rows == s.rows
    ensures w in s'.workers && s'.workers[w].Ready? && s'.workers[w].seen == Some(id) && s'.workers[w].req == s.workers[w].req
  {
    s' := Next(s, Reread(w, Some(id)));
  }

  /** If the winner has vanished by then, the call ends without writing anything. */
  lemma VanishedWinnerIsAnError(s: State, w: WorkerId)
    requires w in s.workers && s.workers[w].Lost? && KeyFree(s, s.workers[w].req.key)
    ensures Enabled(s, Reread(w, None))
    ensures Next(s, Reread(w, None)) == s.(workers := s.workers[w := Idle])
  {
  }

  /***** Promotion *****/

  /** A row stamped by the unsolved-challenge detector keeps the stamp whatever
      other detectors write to it and whoever writes stale to other rows. */
  lemma {:induction false} StampStays(t: seq<State>, steps: seq<Step>, i: nat, j: nat, id: RuleId)
    requires IsRun(t, steps) && Init(t[0]) && i <= j <= |steps|
    requires OperatorAway(steps, i, j, id) && NothingLoses(steps, i, j, id)
    requires id in t[i].rows && IsAutoRow(t[i].rows[id]) && Mentions(t[i].rows[id].kind.detectors, UNSOLVED)
    ensures id in t[j].rows && IsAutoRow(t[j].rows[id]) && KeyOf(t[j].rows[id]) == KeyOf(t[i].rows[id])
    ensures Mentions(t[j].rows[id].kind.detectors, UNSOLVED)
  {
    if i < j {
      StampStays(t, steps, i, j - 1, id);
      RunKeepsInv(t, steps, j - 1);
      assert !Loses(steps[j - 1], id) && !IsOperator(steps[j - 1], id);
      StepKeepsStamp(t[j - 1], steps[j - 1], id);
      assert t[j] == Next(t[j - 1], steps[j - 1]);
    }
  }

  lemma StepKeepsStamp(s: State, step: Step, id: RuleId)
    requires Inv(s) && Enabled(s, step) && id in s.rows && !IsOperator(step, id) && !Loses(step, id)
    requires IsAutoRow(s.rows[id])
    ensures id in Next(s, step).rows
    ensures var r := Next(s, step).rows[id];
            && IsAutoRow(r) && KeyOf(r) == KeyOf(s.rows[id])
            && (Mentions(s.rows[id].kind.detectors, UNSOLVED) ==> Mentions(r.kind.detectors, UNSOLVED))
  {
    if WritesRow(s, step, id) {
      assert PhaseOk(s, s.workers[step.w]);
      MergeStamp(s.rows[id].kind.detectors, s.workers[step.w].req.detector);
    }
  }

  /** The step takes a new request for the worker. */
  predicate Starts(step: Step, w: WorkerId) { (step.Cross? || step.Ask?) && step.w == w }

  /** The step writes the worker's request to the table, in one of the three ways. */
  predicate Writes(step: Step, w: WorkerId) { (step.Update? || step.Insert? || step.StaleUpdate?) && step.w == w }

  ghost function Written(s: State, step: Step): RuleId
    requires Enabled(s, step) && (step.Update? || step.Insert? || step.StaleUpdate?)
  {
    if step.Update? then s.workers[step.w].seen.value else step.id
  }

  /** A worker goes on with its request until it writes it or gives up. */
  lemma {:induction false} KeepsRequest(t: seq<State>, steps: seq<Step>, j: nat, m: nat, w: WorkerId, req: Request)
    requires IsRun(t, steps) && j <= m <= |steps|
    requires w in t[j].workers && t[j].workers[w] == Wants(req)
    requires forall k | j <= k < m :: !Starts(steps[k], w)
    ensures GoesOn(t[m], w, req)
  {
    if j < m {
      KeepsRequest(t, steps, j, m - 1, w, req);
      assert !Starts(steps[m - 1], w);
      StepKeepsRequest(t[m - 1], t[m], steps[m - 1], w, req);
    }
  }

  ghost predicate GoesOn(s: State, w: WorkerId, req: Request) {
    w in s.workers && (s.workers[w].Idle? || s.workers[w].req == req)
  }

  lemma StepKeepsRequest(s: State, s': State, step: Step, w: WorkerId, req: Request)
    requires Enabled(s, step) && s' == Next(s, step) && !Starts(step, w) && GoesOn(s, w, req)
    ensures GoesOn(s', w, req)
  {
    match step {
      case Read(v, _) =>
      case Reread(v, _) =>
      case Conflict(v) =>
      case _ =>
    }
  }

  /** Whichever way a request is written, the row has its key and its detector. */
  lemma WriteLeavesStamp(s: State, step: Step, w: WorkerId)
    requires Inv(s) && Enabled(s, step) && Writes(step, w)
    ensures var r, req := Next(s, step).rows[Written(s, step)], s.workers[w].req;
            HasKey(r, req.key) && Mentions(r.kind.detectors, req.detector)
  {
    assert PhaseOk(s, s.workers[w]);
    var req := s.workers[w].req;
    var existing := if step.Update? then s.rows[s.workers[w].seen.value].kind.detectors else "";
    MergePlain(existing, req.detector);
  }

  /**
   * Promotion. Let a subnet's CHALLENGE row be stamped at i and never be decided
   * on or lost; let the detector cross again at j while the row is active. Then
   * whatever that crossing's worker next writes, at m, in whichever way, is the
   * subnet's BLOCK row, with the detector's stamp on it.
   */
  lemma SecondCrossingBlocks(t: seq<State>, steps: seq<Step>, i: nat, j: nat, m: nat, id: RuleId, w: WorkerId)
    requires IsRun(t, steps) && Init(t[0]) && i <= j < m < |steps|
    requires steps[j].Cross? && steps[j].w == w
    requires id in t[i].rows && HasKey(t[i].rows[id], AutoKey(Cidr, steps[j].req.key.pattern, Challenge))
    requires Mentions(t[i].rows[id].kind.detectors, UNSOLVED)
    requires OperatorAway(steps, i, j, id) && NothingLoses(steps, i, j, id)
    requires id in t[j].rows && t[j].rows[id].isActive
    requires (forall k | j < k < m :: !Starts(steps[k], w)) && Writes(steps[m], w)
    ensures t[j + 1].workers[w] == Wants(steps[j].req.(key := AutoKey(Cidr, steps[j].req.key.pattern, Block)))
    ensures var r := t[m + 1].rows[Written(t[m], steps[m])];
            HasKey(r, AutoKey(Cidr, steps[j].req.key.pattern, Block)) && Mentions(r.kind.detectors, UNSOLVED)
  {
    var subnet := steps[j].req.key.pattern;
    StampStays(t, steps, i, j, id);
    assert HasKey(t[j].rows[id], AutoKey(Cidr, subnet, Challenge)) && Mentions(t[j].rows[id].kind.detectors, UNSOLVED);
    assert t[j + 1] == Next(t[j], steps[j]);
    var req := steps[j].req.(key := AutoKey(Cidr, subnet, Block));
    KeepsRequest(t, steps, j + 1, m, w, req);
    RunKeepsInv(t, steps, m);
    WriteLeavesStamp(t[m], steps[m], w);
  }

  /** A busy worker's request came from a step that started it. */
  lemma {:induction false} RequestSince(t: seq<State>, steps: seq<Step>, j: nat, w: WorkerId) returns (f: nat)
    requires IsRun(t, steps) && Init(t[0]) && j <= |steps| && w in t[j].workers && !t[j].workers[w].Idle?
    ensures f < j && Starts(steps[f], w) && w in t[f + 1].workers && t[f + 1].workers[w] == Wants(t[j].workers[w].req)
  {
    var before, step := t[j - 1], steps[j - 1];
    assert t[j] == Next(before, step);
    if Starts(step, w) {
      f := j - 1;
    } else {
      assert w in before.workers && !before.workers[w].Idle? && before.workers[w].req == t[j].workers[w].req by {
        WasBusy(before, step, w);
      }
      f := RequestSince(t, steps, j - 1, w);
    }
  }

  lemma WasBusy(s: State, step: Step, w: WorkerId)
    requires Enabled(s, step) && !Starts(step, w) && w in Next(s, step).workers && !Next(s, step).workers[w].Idle?
    ensures w in s.workers && !s.workers[w].Idle? && s.workers[w].req == Next(s, step).workers[w].req
  {
    match step {
      case Read(_, _) =>
      case Reread(_, _) =>
      case Conflict(_) =>
      case _ =>
    }
  }

  /** The request a subnet's first crossing writes. */
  predicate AsksChallenge(p: Phase, subnet: string) {
    !p.Idle? && p.req.detector == UNSOLVED && p.req.key == AutoKey(Cidr, subnet, Challenge)
  }

  /** A subnet is recorded as challenged only by the step that writes its row. */
  lemma {:induction false} ChallengedSince(t: seq<State>, steps: seq<Step>, i: nat, subnet: string) returns (j: nat, w: WorkerId)
    requires IsRun(t, steps) && Init(t[0]) && i <= |steps| && subnet in t[i].challenged
    ensures j < i && Writes(steps[j], w) && w in t[j].workers && AsksChallenge(t[j].workers[w], subnet)
  {
    var before, step := t[i - 1], steps[i - 1];
    assert t[i] == Next(before, step);
    if subnet in before.challenged {
      j, w := ChallengedSince(t, steps, i - 1, subnet);
    } else {
      RecordsSubnet(before, step, subnet);
      j, w := i - 1, step.w;
    }
  }

  lemma RecordsSubnet(s: State, step: Step, subnet: string)
    requires Enabled(s, step) && subnet !in s.challenged && subnet in Next(s, step).challenged
    ensures (step.Update? || step.Insert? || step.StaleUpdate?) && AsksChallenge(s.workers[step.w], subnet)
  {
  }

  /**
   * The history behind a stamp. Every subnet row that bears the stamp of the
   * unsolved-challenge detector, BLOCK or CHALLENGE, was preceded by a crossing of
   * that detector for that subnet, at step f, whose worker then wrote, at step j,
   * the subnet's CHALLENGE row with the stamp on it.
   */
  lemma StampHasCrossing(t: seq<State>, steps: seq<Step>, i: nat, id: RuleId) returns (f: nat, j: nat)
    requires IsRun(t, steps) && Init(t[0]) && i <= |steps| && id in t[i].rows && t[i].rows[id].kind.BlockKind?
    requires t[i].rows[id].ruleType == Cidr && t[i].rows[id].kind.action in {Block, Challenge}
    requires Mentions(t[i].rows[id].kind.detectors, UNSOLVED)
    ensures f < j < i && steps[f].Cross? && steps[f].req.key.pattern == t[i].rows[id].pattern && Writes(steps[j], steps[f].w)
    ensures var r := t[j + 1].rows[Written(t[j], steps[j])];
            HasKey(r, AutoKey(Cidr, t[i].rows[id].pattern, Challenge)) && Mentions(r.kind.detectors, UNSOLVED)
  {
    var subnet := t[i].rows[id].pattern;
    RunKeepsInv(t, steps, i);
    assert StampOk(t[i], t[i].rows[id]);
    var w;
    j, w := ChallengedSince(t, steps, i, subnet);
    RunKeepsInv(t, steps, j);
    WriteLeavesStamp(t[j], steps[j], w);
    f := RequestSince(t, steps, j, w);
    assert Enabled(t[f], steps[f]) && t[f + 1] == Next(t[f], steps[f]);
  }

  /***** Pruning and the sweep *****/

  lemma {:induction false} DoomedSince(t: seq<State>, steps: seq<Step>, i: nat, id: RuleId) returns (j: nat)
    requires IsRun(t, steps) && Init(t[0]) && i <= |steps| && id in t[i].doomed
    ensures j < i && steps[j].Select? && steps[j].id == id
    ensures forall k | j < k < i :: steps[k] != Delete(id)
  {
    var step := steps[i - 1];
    assert t[i] == Next(t[i - 1], step);
    if step.Select? && step.id == id {
      j := i - 1;
    } else {
      j := DoomedSince(t, steps, i - 1, id);
    }
  }

  /** A detector or the operator writes to the row. */
  predicate Touches(s: State, step: Step, id: RuleId) {
    IsOperator(step, id) || WritesRow(s, step, id) || (step.StaleUpdate? && step.id == id)
  }

  /** What the retention filter admits. */
  predicate Prunable(r: Rule) {
    && r.kind.BlockKind? && r.source == Auto && !r.isActive
    && r.kind.review !in {Pending, Confirmed, Rejected}
  }

  lemma {:induction false} UntouchedStays(t: seq<State>, steps: seq<Step>, i: nat, j: nat, id: RuleId)
    requires IsRun(t, steps) && i <= j <= |steps|
    requires id in t[i].rows && Prunable(t[i].rows[id])
    requires forall k | i <= k < j :: !Touches(t[k], steps[k], id) && steps[k] != Delete(id)
    ensures id in t[j].rows && t[j].rows[id] == t[i].rows[id]
  {
    if i < j {
      UntouchedStays(t, steps, i, j - 1, id);
      assert !Touches(t[j - 1], steps[j - 1], id) && steps[j - 1] != Delete(id);
      assert t[j] == Next(t[j - 1], steps[j - 1]);
    }
  }

  /**
   * What a prune takes. Every deleted row was selected earlier, and then it was
   * inactive, the detectors' own, neither awaiting review nor decided on, and past
   * its expiry by more than the days asked for. It is deleted as it was selected
   * unless somebody wrote to it in between.
   */
  lemma PruneSparesDecisions(t: seq<State>, steps: seq<Step>, i: nat, id: RuleId) returns (j: nat)
    requires IsRun(t, steps) && Init(t[0]) && i < |steps| && steps[i] == Delete(id)
    ensures j < i && steps[j].Select? && steps[j].id == id
    ensures id in t[j].rows && Prunable(t[j].rows[id])
    ensures t[j].rows[id].expiresAt.Some? && t[j].rows[id].expiresAt.value + steps[j].days * 86_400_000_000 < t[j].now
    ensures (forall k | j <= k < i :: !Touches(t[k], steps[k], id)) ==> id in t[i].rows && t[i].rows[id] == t[j].rows[id]
  {
    j := DoomedSince(t, steps, i, id);
    assert Enabled(t[j], steps[j]);
    if forall k | j <= k < i :: !Touches(t[k], steps[k], id) {
      UntouchedStays(t, steps, j, i, id);
    }
  }

  /** What the two updates of a sweep leave of a row, on its columns: an unexpired row
      as it was; an expired one inactive, and marked as never reviewed if it was an
      auto row still awaiting review, which a prune may then take. */
  lemma SweepLeaves(s: State, id: RuleId)
    requires Inv(s) && Enabled(s, Deactivate(id))
    ensures Enabled(Next(s, Deactivate(id)), MarkUnreviewed(id))
    ensures var r, r' := s.rows[id], Next(Next(s, Deactivate(id)), MarkUnreviewed(id)).rows[id];
            if r.expiresAt.None? || r.expiresAt.value > s.now then r' == r
            else
              && !r'.isActive && r'.(isActive := r.isActive, kind := r.kind) == r
              && r'.kind == (if r.source == Auto && r.kind.review == Pending then r.kind.(review := ExpiredUnreviewed) else r.kind)
  {
    assert RowOk(id, s.rows[id]);
  }

  /** After the sweep has been over a row it is neither expired and active nor
      pending past its expiry. */
  lemma SweepSettles(r: Rule, now: Time)
    ensures !IsExpired(Swept(r, now), now)
    ensures r.kind.BlockKind? && r.source == Auto && r.kind.review == Pending && !Unexpired(r.expiresAt, now) ==>
              Swept(r, now).kind.review == ExpiredUnreviewed && !Swept(r, now).isActive
    ensures Unexpired(r.expiresAt, now) ==> Swept(r, now) == r
  {
  }
}
