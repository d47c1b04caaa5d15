/**
 * Hits landing while a flush or a probe is at work. Each Redis command and each
 * row update of `flush_rule_hit_counts` and `run_flush_probe` is a step, GET and
 * DEL of a key included, and a request may record a hit between any two steps.
 * One flush or one probe runs at a time.
 */
module HitRaces {
  import opened Wrappers
  import opened Rules
  import opened HitCounter

  /** Where the flush is. `probe` is the probe's own rule when the flush is the one
      inside a probe. */
  datatype Phase =
    | Idle
    | Flushing(todo: set<RuleId>, probe: Option<RuleId>)
    | Got(key: RuleId, count: nat, todo: set<RuleId>, probe: Option<RuleId>)
    | Deleted(key: RuleId, count: nat, todo: set<RuleId>, probe: Option<RuleId>)
    | Snapshotting(todo: set<RuleId>, own: RuleId)
    | Recorded(own: RuleId)
    | RolledBack(own: RuleId)
    | Reconciling(todo: set<RuleId>)

  /**
   * `rows` is the column as the flush's own connection sees it and `committed`
   * as everyone else does: they differ only inside a probe. `hits` counts the
   * hits ever recorded for a rule and `exposed` those of them that landed while
   * a probe was running, or between the GET and the DEL of that rule's key.
   */
  datatype State = State(
    pending: Counters,
    rows: Counters,
    committed: Counters,
    snapshot: Counters,
    phase: Phase,
    hits: Counters,
    exposed: Counters)

  predicate InProbe(p: Phase) {
    match p
    case Idle => false
    case Flushing(_, probe) => probe.Some?
    case Got(_, _, _, probe) => probe.Some?
    case Deleted(_, _, _, probe) => probe.Some?
    case _ => true
  }

  predicate IsExposed(p: Phase, id: RuleId) {
    InProbe(p) || (p.Got? && p.key == id)
  }

  datatype Step =
    | Hit(id: RuleId)
    | BeginFlush
    | Get(id: RuleId)
    | Del
    | Write
    | EndFlush
    | BeginProbe(own: RuleId)
    | Snap(id: RuleId)
    | RecordOwn
    | ListKeys
    | RollBack
    | Clean
    | Reconcile(id: RuleId)
    | EndProbe

  predicate Enabled(s: State, step: Step) {
    var p := s.phase;
    match step
    case Hit(id) => id in s.committed
    case BeginFlush => p.Idle?
    case Get(id) => p.Flushing? && id in p.todo
    case Del => p.Got?
    case Write => p.Deleted?
    case EndFlush => p.Flushing? && p.todo == {} && p.probe.None?
    case BeginProbe(own) => p.Idle? && own !in s.committed && own !in s.pending
    case Snap(id) => p.Snapshotting? && id in p.todo
    case RecordOwn => p.Snapshotting? && p.todo == {}
    case ListKeys => p.Recorded?
    case RollBack => p.Flushing? && p.todo == {} && p.probe.Some?
    case Clean => p.RolledBack?
    case Reconcile(id) => p.Reconciling? && id in p.todo
    case EndProbe => p.Reconciling? && p.todo == {}
  }

  function Next(s: State, step: Step): State
    requires Enabled(s, step)
  {
    var p := s.phase;
    match step
    case Hit(id) =>
      s.(pending := HitCounter.Recorded(s.pending, id),
         hits := HitCounter.Recorded(s.hits, id),
         exposed := if IsExposed(p, id) then HitCounter.Recorded(s.exposed, id) else s.exposed)
    case BeginFlush => s.(phase := Flushing(s.pending.Keys, None))
    case Get(id) => s.(phase := Got(id, Count(s.pending, id), p.todo - {id}, p.probe))
    case Del => s.(pending := s.pending - {p.key}, phase := Deleted(p.key, p.count, p.todo, p.probe))
    case Write =>
      var rows := if p.count > 0 && p.key in s.rows then s.rows[p.key := s.rows[p.key] + p.count] else s.rows;
      s.(rows := rows, committed := if p.probe.Some? then s.committed else rows, phase := Flushing(p.todo, p.probe))
    case EndFlush => s.(phase := Idle)
    case BeginProbe(own) =>
      s.(rows := s.rows[own := 0], snapshot := map[], phase := Snapshotting(s.pending.Keys, own))
    case Snap(id) =>
      s.(snapshot := if id in s.pending then s.snapshot[id := s.pending[id]] else s.snapshot,
         phase := Snapshotting(p.todo - {id}, p.own))
    case RecordOwn => s.(pending := HitCounter.Recorded(s.pending, p.own), phase := Recorded(p.own))
    case ListKeys => s.(phase := Flushing(s.pending.Keys, Some(p.own)))
    case RollBack => s.(rows := s.committed, phase := RolledBack(p.probe.value))
    case Clean => s.(pending := s.pending - {p.own}, phase := Reconciling(s.snapshot.Keys))
    case Reconcile(id) =>
      s.(pending := if Count(s.snapshot, id) > 0 then s.pending[id := s.snapshot[id]] else s.pending,
         phase := Reconciling(p.todo - {id}))
    case EndProbe => s.(phase := Idle)
  }

  /** How much of a rule's count is safe whatever happens next, besides its row. */
  ghost function Safe(s: State, id: RuleId): nat {
    match s.phase
    case Idle => Count(s.pending, id)
    case Snapshotting(todo, _) => if id in todo then Count(s.pending, id) else Count(s.snapshot, id)
    case Reconciling(todo) => if id in todo then Count(s.snapshot, id) else Count(s.pending, id)
    case Flushing(_, probe) => if probe.Some? then Count(s.snapshot, id) else Count(s.pending, id)
    case Got(key, count, _, probe) =>
      if probe.Some? then Count(s.snapshot, id) else if id == key then count else Count(s.pending, id)
    case Deleted(key, count, _, probe) =>
      if probe.Some? then Count(s.snapshot, id)
      else Count(s.pending, id) + if id == key then count else 0
    case _ => Count(s.snapshot, id)
  }

  /** The accounts of one live rule: what is safe is never more than its hits, and
      short of them by at most the exposed ones. */
  ghost predicate Balanced(s: State, id: RuleId)
    requires id in s.committed
  {
    && s.committed[id] + Safe(s, id) <= Count(s.hits, id)
    && Count(s.hits, id) <= s.committed[id] + Safe(s, id) + Count(s.exposed, id)
  }

  /** Inside a probe a counter that was not snapshotted holds only hits that
      landed during it. */
  ghost predicate NoneExtra(s: State, id: RuleId)
    requires id in s.committed
  {
    var p := s.phase;
    InProbe(p) && id !in s.snapshot && !(p.Snapshotting? && id in p.todo) ==>
      s.committed[id] + Count(s.pending, id) <= Count(s.hits, id)
  }

  ghost predicate Inv(s: State) {
    var p := s.phase;
    && (forall id :: id in s.pending ==> s.pending[id] > 0)
    && (forall id :: id in s.snapshot ==> s.snapshot[id] > 0)
    && (!InProbe(p) ==> s.rows == s.committed)
    && (p.Got? && p.probe.None? ==> p.count <= Count(s.pending, p.key))
    && (p.Snapshotting? ==> p.todo <= s.pending.Keys && p.todo !! s.snapshot.Keys)
    && (p.Reconciling? ==> p.todo <= s.snapshot.Keys && s.rows == s.committed)
    && (p.RolledBack? ==> s.rows == s.committed)
    && (forall id :: id in s.committed ==> Balanced(s, id) && NoneExtra(s, id))
    && OwnApart(s)
  }

  /** The probe's own rule is not a live one. */
  ghost predicate OwnApart(s: State) {
    match s.phase
    case Snapshotting(_, own) => own !in s.committed
    case Recorded(own) => own !in s.committed
    case RolledBack(own) => own !in s.committed
    case Flushing(_, probe) => probe.Some? ==> probe.value !in s.committed
    case Got(_, _, _, probe) => probe.Some? ==> probe.value !in s.committed
    case Deleted(_, _, _, probe) => probe.Some? ==> probe.value !in s.committed
    case _ => true
  }

  /** A hit on one rule leaves the accounts of another alone. */
  lemma HitElsewhere(s: State, id: RuleId, k: RuleId)
    requires Enabled(s, Hit(id)) && k in s.committed && k != id && Balanced(s, k) && NoneExtra(s, k)
    ensures Balanced(Next(s, Hit(id)), k) && NoneExtra(Next(s, Hit(id)), k)
  {
  }

  lemma HitHere(s: State, id: RuleId)
    requires Enabled(s, Hit(id)) && Balanced(s, id) && NoneExtra(s, id)
    ensures Balanced(Next(s, Hit(id)), id) && NoneExtra(Next(s, Hit(id)), id)
  {
  }

  lemma HitKeepsInv(s: State, id: RuleId)
    requires Inv(s) && Enabled(s, Hit(id))
    ensures Inv(Next(s, Hit(id)))
  {
    var s' := Next(s, Hit(id));
    forall k | k in s'.committed ensures Balanced(s', k) && NoneExtra(s', k) {
      if k == id {
        HitHere(s, id);
      } else {
        HitElsewhere(s, id, k);
      }
    }
  }

  lemma FlushBalances(s: State, step: Step, k: RuleId)
    requires Inv(s) && Enabled(s, step) && k in s.committed
    requires step.BeginFlush? || step.Get? || step.Del? || step.Write? || step.EndFlush?
    ensures k in Next(s, step).committed ==> Balanced(Next(s, step), k) && NoneExtra(Next(s, step), k)
  {
    assert Balanced(s, k) && NoneExtra(s, k);
  }

  lemma FlushKeepsInv(s: State, step: Step)
    requires Inv(s) && Enabled(s, step)
    requires step.BeginFlush? || step.Get? || step.Del? || step.Write? || step.EndFlush?
    ensures Inv(Next(s, step))
  {
    forall k | k in s.committed
      ensures k in Next(s, step).committed ==> Balanced(Next(s, step), k) && NoneExtra(Next(s, step), k)
    {
      FlushBalances(s, step, k);
    }
  }

  lemma SnapshotBalances(s: State, step: Step, k: RuleId)
    requires Inv(s) && Enabled(s, step) && k in s.committed
    requires step.BeginProbe? || step.Snap? || step.RecordOwn? || step.ListKeys?
    ensures k in Next(s, step).committed ==> Balanced(Next(s, step), k) && NoneExtra(Next(s, step), k)
  {
    assert Balanced(s, k) && NoneExtra(s, k);
  }

  lemma SnapshotKeepsInv(s: State, step: Step)
    requires Inv(s) && Enabled(s, step)
    requires step.BeginProbe? || step.Snap? || step.RecordOwn? || step.ListKeys?
    ensures Inv(Next(s, step))
  {
    forall k | k in s.committed
      ensures k in Next(s, step).committed ==> Balanced(Next(s, step), k) && NoneExtra(Next(s, step), k)
    {
      SnapshotBalances(s, step, k);
    }
  }

  lemma ReconcileBalances(s: State, step: Step, k: RuleId)
    requires Inv(s) && Enabled(s, step) && k in s.committed
    requires step.RollBack? || step.Clean? || step.Reconcile? || step.EndProbe?
    ensures k in Next(s, step).committed ==> Balanced(Next(s, step), k) && NoneExtra(Next(s, step), k)
  {
    assert Balanced(s, k) && NoneExtra(s, k);
  }

  lemma ReconcileKeepsInv(s: State, step: Step)
    requires Inv(s) && Enabled(s, step)
    requires step.RollBack? || step.Clean? || step.Reconcile? || step.EndProbe?
    ensures Inv(Next(s, step))
  {
    forall k | k in s.committed
      ensures k in Next(s, step).committed ==> Balanced(Next(s, step), k) && NoneExtra(Next(s, step), k)
    {
      ReconcileBalances(s, step, k);
    }
  }

  lemma StepKeepsInv(s: State, step: Step)
    requires Inv(s) && Enabled(s, step)
    ensures Inv(Next(s, step)) && Next(s, step).committed.Keys == s.committed.Keys
  {
    match step {
      case Hit(id) => HitKeepsInv(s, id);
      case BeginProbe(_) => SnapshotKeepsInv(s, step);
      case Snap(_) => SnapshotKeepsInv(s, step);
      case RecordOwn => SnapshotKeepsInv(s, step);
      case ListKeys => SnapshotKeepsInv(s, step);
      case RollBack => ReconcileKeepsInv(s, step);
      case Clean => ReconcileKeepsInv(s, step);
      case Reconcile(_) => ReconcileKeepsInv(s, step);
      case EndProbe => ReconcileKeepsInv(s, step);
      case _ => FlushKeepsInv(s, step);
    }
  }

  ghost predicate IsRun(t: seq<State>, steps: seq<Step>) {
    && |t| == |steps| + 1
    && forall i :: 0 <= i < |steps| ==> Enabled(t[i], steps[i]) && t[i + 1] == Next(t[i], steps[i])
  }

  ghost predicate Init(s: State) {
    && s.phase.Idle? && s.pending == map[] && s.snapshot == map[] && s.exposed == map[]
    && s.rows == s.committed && s.hits == s.committed
  }

  lemma {:induction false} RunKeepsInv(t: seq<State>, steps: seq<Step>, i: nat)
    requires IsRun(t, steps) && Init(t[0]) && i <= |steps|
    ensures Inv(t[i]) && t[i].committed.Keys == t[0].committed.Keys
  {
    if i == 0 {
      forall id | id in t[0].committed ensures Balanced(t[0], id) {
      }
    } else {
      RunKeepsInv(t, steps, i - 1);
      StepKeepsInv(t[i - 1], steps[i - 1]);
    }
  }

  /**
   * Conservation under interference. Whenever no task is at work, the row and
   * the counter of a rule together never exceed the hits recorded for it, and
   * fall short of them by at most the hits that landed inside a probe or
   * between the GET and DEL of the rule's own key. With none of those they add
   * up exactly.
   */
  lemma HitsAreConserved(t: seq<State>, steps: seq<Step>, i: nat, id: RuleId)
    requires IsRun(t, steps) && Init(t[0]) && i <= |steps| && t[i].phase.Idle? && id in t[0].committed
    ensures id in t[i].committed
    ensures t[i].committed[id] + Count(t[i].pending, id) <= Count(t[i].hits, id)
    ensures Count(t[i].hits, id) <= t[i].committed[id] + Count(t[i].pending, id) + Count(t[i].exposed, id)
  {
    RunKeepsInv(t, steps, i);
    assert Balanced(t[i], id);
  }
}
