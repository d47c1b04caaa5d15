/**
 * The versioned rule cache (src/django_waf/services/rule_engine.py,
 * `load_rule_cache` and the rebuild functions; src/django_waf/handlers.py,
 * `_invalidate_rule_cache`) as a step system: any number of worker processes
 * load rules while writers commit transactions and bump `waf:rules:version`,
 * with Redis entries and the rebuild lock disappearing at any moment.
 *
 * A step is one command sent to Redis or the database. A worker process has
 * one thread, so assigning its two globals is one step.
 */
module RuleCache {
  import opened Wrappers
  import opened Rules
  import opened RuleEvaluation

  const LOCK_RETRIES: nat := 3

  type WorkerId = nat

  /** The committed contents of the two rule tables. */
  datatype Tables = Tables(block: seq<Rule>, allow: seq<Rule>)

  /** A built rule set: what Redis holds under one version, and what a process
      holds together with the version it was loaded for. */
  datatype Entry = Entry(block: seq<CachedRule>, allow: seq<CachedRule>)
  datatype ProcessCache = ProcessCache(version: nat, entry: Entry)

  /** Where a worker is inside `load_rule_cache`. `held` says whether it took the
      rebuild lock. */
  datatype Pc =
    | Idle
    | HasVersion(version: nat)
    | Locking(version: nat, attempt: nat)
    | ReadingBlock(version: nat, held: bool)
    | ReadingAllow(version: nat, held: bool, block: seq<CachedRule>)
    | Storing(version: nat, held: bool, entry: Entry)
    | Releasing(version: nat, held: bool, entry: Entry)
    | Finishing(version: nat, entry: Entry)

  datatype Worker = Worker(cache: Option<ProcessCache>, pc: Pc)

  /** A completed load: the version it read, what it returned and when. */
  datatype Load = Load(worker: WorkerId, version: nat, entry: Entry, at: Time)

  /**
   * `history` holds every committed state of the tables, the current one last.
   * `committed[v]` is the index in it of the newest state when the version
   * became v, so the version itself is the last index of `committed`.
   */
  datatype State = State(
    now: Time,
    history: seq<Tables>,
    committed: seq<nat>,
    redis: map<nat, Entry>,
    lock: bool,
    workers: map<WorkerId, Worker>,
    loads: seq<Load>)

  function Version(s: State): int { |s.committed| - 1 }

  datatype Step =
    | Tick(to: Time)
    | Commit(tables: Tables)
    | Bump
    | ReadVersion(k: WorkerId)
    | Lookup(k: WorkerId, parses: bool)
    | TryLock(k: WorkerId, redisFails: bool)
    /** The database answers a query with the live rows in order of priority, and
        in whatever order it likes among equals. */
    | ReadBlocks(k: WorkerId, answer: seq<Rule>)
    | ReadAllows(k: WorkerId, answer: seq<Rule>)
    | Store(k: WorkerId)
    | Release(k: WorkerId)
    | Finish(k: WorkerId)
    | Abort(k: WorkerId)
    | Restart(k: WorkerId)
    | Evict(version: nat)
    | LockExpires

  predicate IsLoadStep(step: Step) {
    step.ReadVersion? || step.Lookup? || step.TryLock? || step.ReadBlocks? || step.ReadAllows?
    || step.Store? || step.Release? || step.Finish?
  }

  ghost predicate Enabled(s: State, step: Step) {
    match step
    case Tick(to) => s.now <= to
    case Commit(_) => |s.history| > 0
    case Bump => |s.history| > 0
    case Evict(_) => true
    case LockExpires => true
    case Restart(k) => true
    case Abort(k) => k in s.workers
    case ReadVersion(k) => k in s.workers && s.workers[k].pc.Idle? && |s.committed| > 0
    case Lookup(k, _) => k in s.workers && s.workers[k].pc.HasVersion?
    case TryLock(k, _) => k in s.workers && s.workers[k].pc.Locking?
    case ReadBlocks(k, answer) =>
      && k in s.workers && s.workers[k].pc.ReadingBlock?
      && |s.history| > 0 && MayAnswer(s.history[|s.history| - 1].block, s.now, answer)
    case ReadAllows(k, answer) =>
      && k in s.workers && s.workers[k].pc.ReadingAllow?
      && |s.history| > 0 && MayAnswer(s.history[|s.history| - 1].allow, s.now, answer)
    case Store(k) => k in s.workers && s.workers[k].pc.Storing?
    case Release(k) => k in s.workers && s.workers[k].pc.Releasing?
    case Finish(k) => k in s.workers && s.workers[k].pc.Finishing?
  }

  function Goto(s: State, k: WorkerId, pc: Pc): State
    requires k in s.workers
  {
    s.(workers := s.workers[k := s.workers[k].(pc := pc)])
  }

  /** A load returns `entry` for `version`: both globals are assigned. */
  function Return(s: State, k: WorkerId, version: nat, entry: Entry): State {
    s.(workers := s.workers[k := Worker(Some(ProcessCache(version, entry)), Idle)],
       loads := s.loads + [Load(k, version, entry, s.now)])
  }

  function Next(s: State, step: Step): State
    requires Enabled(s, step)
  {
    match step
    case Tick(to) => s.(now := to)
    case Commit(tables) => s.(history := s.history + [tables])
    case Bump => s.(committed := s.committed + [|s.history| - 1])
    case Evict(v) => s.(redis := s.redis - {v})
    case LockExpires => s.(lock := false)
    case Restart(k) => s.(workers := s.workers[k := Worker(None, Idle)])
    case Abort(k) => Goto(s, k, Idle)
    case ReadVersion(k) =>
      var v := |s.committed| - 1;
      var c := s.workers[k].cache;
      if c.Some? && c.value.version == v then Return(s, k, v, c.value.entry)
      else Goto(s, k, HasVersion(v))
    case Lookup(k, parses) =>
      var v := s.workers[k].pc.version;
      if v in s.redis && parses then Return(s, k, v, s.redis[v])
      else Goto(s, k, Locking(v, 0))
    case TryLock(k, redisFails) =>
      var Locking(v, attempt) := s.workers[k].pc;
      if redisFails then Goto(s, k, ReadingBlock(v, false))
      else if !s.lock then Goto(s.(lock := true), k, ReadingBlock(v, true))
      else if attempt < LOCK_RETRIES then Goto(s, k, Locking(v, attempt + 1))
      else Goto(s, k, ReadingBlock(v, false))
    case ReadBlocks(k, answer) =>
      var ReadingBlock(v, held) := s.workers[k].pc;
      Goto(s, k, ReadingAllow(v, held, Cache(answer)))
    case ReadAllows(k, answer) =>
      var ReadingAllow(v, held, block) := s.workers[k].pc;
      Goto(s, k, Storing(v, held, Entry(block, Cache(answer))))
    case Store(k) =>
      var Storing(v, held, entry) := s.workers[k].pc;
      Goto(s.(redis := s.redis[v := entry]), k, Releasing(v, held, entry))
    case Release(k) =>
      var Releasing(v, held, entry) := s.workers[k].pc;
      Goto(if held then s.(lock := false) else s, k, Finishing(v, entry))
    case Finish(k) =>
      var Finishing(v, entry) := s.workers[k].pc;
      Return(s, k, v, entry)
  }

  /** A run: the states `t` gone through by taking `steps` one after the other. */
  ghost predicate IsRun(t: seq<State>, steps: seq<Step>) {
    && |t| == |steps| + 1
    && forall i :: 0 <= i < |steps| ==> Enabled(t[i], steps[i]) && t[i + 1] == Next(t[i], steps[i])
  }

  /** Nothing cached anywhere, version 0, one committed state of the tables. */
  ghost predicate Init(s: State) {
    && |s.history| == 1
    && s.committed == [0]
    && s.redis == map[]
    && s.loads == []
    && forall k :: k in s.workers ==> s.workers[k] == Worker(None, Idle)
  }

  /***** The invariant: what is filed under a version reflects every commit the
         version's bump followed *****/

  /** `block` is what some committed state, no older than the one the bump to
      `version` followed, answered at some time up to `upTo`. */
  ghost predicate BlockFrom(s: State, version: nat, upTo: Time, block: seq<CachedRule>) {
    && version < |s.committed|
    && exists n, t | s.committed[version] <= n < |s.history| && t <= upTo ::
         MayStore(s.history[n].block, t, block)
  }

  ghost predicate AllowFrom(s: State, version: nat, upTo: Time, allow: seq<CachedRule>) {
    && version < |s.committed|
    && exists n, t | s.committed[version] <= n < |s.history| && t <= upTo ::
         MayStore(s.history[n].allow, t, allow)
  }

  ghost predicate EntryFrom(s: State, version: nat, upTo: Time, e: Entry) {
    BlockFrom(s, version, upTo, e.block) && AllowFrom(s, version, upTo, e.allow)
  }

  ghost predicate PcOk(s: State, pc: Pc) {
    match pc
    case Idle => true
    case HasVersion(v) => v < |s.committed|
    case Locking(v, attempt) => v < |s.committed| && attempt <= LOCK_RETRIES
    case ReadingBlock(v, _) => v < |s.committed|
    case ReadingAllow(v, _, block) => BlockFrom(s, v, s.now, block)
    case Storing(v, _, entry) => EntryFrom(s, v, s.now, entry)
    case Releasing(v, _, entry) => EntryFrom(s, v, s.now, entry)
    case Finishing(v, entry) => EntryFrom(s, v, s.now, entry)
  }

  ghost predicate WorkerOk(s: State, w: Worker) {
    && (w.cache.Some? ==> EntryFrom(s, w.cache.value.version, s.now, w.cache.value.entry))
    && PcOk(s, w.pc)
  }

  ghost predicate Inv(s: State) {
    && |s.history| > 0
    && |s.committed| > 0
    && (forall v :: 0 <= v < |s.committed| ==> s.committed[v] < |s.history|)
    && (forall v :: v in s.redis ==> EntryFrom(s, v, s.now, s.redis[v]))
    && (forall k :: k in s.workers ==> WorkerOk(s, s.workers[k]))
    && (forall i :: 0 <= i < |s.loads| ==>
          s.loads[i].at <= s.now && EntryFrom(s, s.loads[i].version, s.loads[i].at, s.loads[i].entry))
  }

  /** Time, commits and bumps only ever add. */
  ghost predicate Grows(s: State, s': State) {
    && s.now <= s'.now
    && s.history <= s'.history
    && s.committed <= s'.committed
  }

  lemma EntryStays(s: State, s': State, v: nat, upTo: Time, upTo': Time, e: Entry)
    requires Grows(s, s') && upTo <= upTo'
    ensures BlockFrom(s, v, upTo, e.block) ==> BlockFrom(s', v, upTo', e.block)
    ensures AllowFrom(s, v, upTo, e.allow) ==> AllowFrom(s', v, upTo', e.allow)
  {
    if BlockFrom(s, v, upTo, e.block) {
      var n, t :| s.committed[v] <= n < |s.history| && t <= upTo && MayStore(s.history[n].block, t, e.block);
      assert s'.history[n] == s.history[n];
    }
    if AllowFrom(s, v, upTo, e.allow) {
      var n, t :| s.committed[v] <= n < |s.history| && t <= upTo && MayStore(s.history[n].allow, t, e.allow);
      assert s'.history[n] == s.history[n];
    }
  }

  lemma WorkerStays(s: State, s': State, w: Worker)
    requires Grows(s, s') && WorkerOk(s, w)
    ensures WorkerOk(s', w)
  {
    if w.cache.Some? {
      EntryStays(s, s', w.cache.value.version, s.now, s'.now, w.cache.value.entry);
    }
    match w.pc {
      case ReadingAllow(v, _, block) => EntryStays(s, s', v, s.now, s'.now, Entry(block, []));
      case Storing(v, _, entry) => EntryStays(s, s', v, s.now, s'.now, entry);
      case Releasing(v, _, entry) => EntryStays(s, s', v, s.now, s'.now, entry);
      case Finishing(v, entry) => EntryStays(s, s', v, s.now, s'.now, entry);
      case _ =>
    }
  }

  /** The invariant survives any growth that leaves the caches alone. */
  lemma InvStays(s: State, s': State)
    requires Inv(s) && Grows(s, s')
    requires s'.workers == s.workers && s'.loads == s.loads
    requires forall v :: v in s'.redis ==> v in s.redis && s'.redis[v] == s.redis[v]
    requires forall v :: 0 <= v < |s'.committed| ==> s'.committed[v] < |s'.history|
    ensures Inv(s')
  {
    forall v | v in s'.redis ensures EntryFrom(s', v, s'.now, s'.redis[v]) {
      EntryStays(s, s', v, s.now, s'.now, s.redis[v]);
    }
    forall k | k in s'.workers ensures WorkerOk(s', s'.workers[k]) {
      WorkerStays(s, s', s.workers[k]);
    }
    forall i | 0 <= i < |s'.loads| ensures EntryFrom(s', s'.loads[i].version, s'.loads[i].at, s'.loads[i].entry) {
      EntryStays(s, s', s.loads[i].version, s.loads[i].at, s.loads[i].at, s.loads[i].entry);
    }
  }

  /** One worker's own state changes and nothing it depends on does. */
  lemma InvOneWorker(s: State, s': State, k: WorkerId)
    requires Inv(s)
    requires s'.now == s.now && s'.history == s.history && s'.committed == s.committed
    requires s'.workers.Keys == s.workers.Keys + {k}
    requires forall j :: j in s.workers && j != k ==> s'.workers[j] == s.workers[j]
    requires WorkerOk(s, s'.workers[k])
    requires forall v :: v in s'.redis ==> EntryFrom(s, v, s.now, s'.redis[v])
    requires s.loads <= s'.loads
    requires forall i :: |s.loads| <= i < |s'.loads| ==>
      s'.loads[i].at == s.now && EntryFrom(s, s'.loads[i].version, s.now, s'.loads[i].entry)
    ensures Inv(s')
  {
    assert Grows(s, s');
    forall v | v in s'.redis ensures EntryFrom(s', v, s'.now, s'.redis[v]) {
      EntryStays(s, s', v, s.now, s.now, s'.redis[v]);
    }
    forall j | j in s'.workers ensures WorkerOk(s', s'.workers[j]) {
      WorkerStays(s, s', s'.workers[j]);
    }
    forall i | 0 <= i < |s'.loads|
      ensures s'.loads[i].at <= s'.now && EntryFrom(s', s'.loads[i].version, s'.loads[i].at, s'.loads[i].entry)
    {
      EntryStays(s, s', s'.loads[i].version, s'.loads[i].at, s'.loads[i].at, s'.loads[i].entry);
    }
  }

  /** A database read made now is at least as new as any version read before. */
  lemma ReadIsFresh(s: State, v: nat, answer: seq<Rule>)
    requires Inv(s) && v < |s.committed|
    ensures MayAnswer(s.history[|s.history| - 1].block, s.now, answer) ==> BlockFrom(s, v, s.now, Cache(answer))
    ensures MayAnswer(s.history[|s.history| - 1].allow, s.now, answer) ==> AllowFrom(s, v, s.now, Cache(answer))
  {
    var last := s.history[|s.history| - 1];
    assert MayAnswer(last.block, s.now, answer) ==> MayStore(last.block, s.now, Cache(answer));
    assert MayAnswer(last.allow, s.now, answer) ==> MayStore(last.allow, s.now, Cache(answer));
  }

  lemma EnvironmentKeepsInv(s: State, step: Step)
    requires Inv(s) && Enabled(s, step)
    requires step.Tick? || step.Commit? || step.Bump? || step.LockExpires? || step.Evict?
    ensures Inv(Next(s, step)) && Grows(s, Next(s, step))
  {
    InvStays(s, Next(s, step));
  }

  lemma GotoKeepsInv(s: State, k: WorkerId, pc: Pc)
    requires Inv(s) && k in s.workers && PcOk(s, pc)
    ensures Inv(Goto(s, k, pc))
  {
    assert WorkerOk(s, s.workers[k]);
    InvOneWorker(s, Goto(s, k, pc), k);
  }

  lemma ReturnKeepsInv(s: State, k: WorkerId, version: nat, entry: Entry)
    requires Inv(s) && k in s.workers && EntryFrom(s, version, s.now, entry)
    ensures Inv(Return(s, k, version, entry))
  {
    InvOneWorker(s, Return(s, k, version, entry), k);
  }

  lemma CachedIsOk(s: State, k: WorkerId)
    requires Inv(s) && k in s.workers && s.workers[k].cache.Some?
    ensures var c := s.workers[k].cache.value; EntryFrom(s, c.version, s.now, c.entry)
  {
    assert WorkerOk(s, s.workers[k]);
  }

  lemma VersionKeepsInv(s: State, k: WorkerId)
    requires Inv(s) && Enabled(s, ReadVersion(k))
    ensures Inv(Next(s, ReadVersion(k)))
  {
    var v: nat, c := |s.committed| - 1, s.workers[k].cache;
    if c.Some? && c.value.version == v {
      CachedIsOk(s, k);
      ReturnKeepsInv(s, k, v, c.value.entry);
    } else {
      assert Next(s, ReadVersion(k)) == Goto(s, k, HasVersion(v));
      GotoKeepsInv(s, k, HasVersion(v));
    }
  }

  lemma LookupKeepsInv(s: State, k: WorkerId, parses: bool)
    requires Inv(s) && Enabled(s, Lookup(k, parses))
    ensures Inv(Next(s, Lookup(k, parses)))
  {
    assert WorkerOk(s, s.workers[k]);
    var v := s.workers[k].pc.version;
    if v in s.redis && parses {
      ReturnKeepsInv(s, k, v, s.redis[v]);
    } else {
      GotoKeepsInv(s, k, Locking(v, 0));
    }
  }

  lemma FinishKeepsInv(s: State, k: WorkerId)
    requires Inv(s) && Enabled(s, Finish(k))
    ensures Inv(Next(s, Finish(k)))
  {
    assert WorkerOk(s, s.workers[k]);
    ReturnKeepsInv(s, k, s.workers[k].pc.version, s.workers[k].pc.entry);
  }

  lemma ReadKeepsInv(s: State, step: Step, k: WorkerId)
    requires Inv(s) && Enabled(s, step)
    requires (step.ReadBlocks? || step.ReadAllows?) && step.k == k
    ensures Inv(Next(s, step))
  {
    assert WorkerOk(s, s.workers[k]);
    ReadIsFresh(s, s.workers[k].pc.version, step.answer);
    InvOneWorker(s, Next(s, step), k);
  }

  lemma StoreKeepsInv(s: State, step: Step, k: WorkerId)
    requires Inv(s) && Enabled(s, step)
    requires step == Store(k) || step == Release(k)
    ensures Inv(Next(s, step))
  {
    assert WorkerOk(s, s.workers[k]);
    InvOneWorker(s, Next(s, step), k);
  }

  lemma LockKeepsInv(s: State, step: Step, k: WorkerId)
    requires Inv(s) && Enabled(s, step)
    requires step == TryLock(k, true) || step == TryLock(k, false) || step == Abort(k) || step == Restart(k)
    ensures Inv(Next(s, step))
  {
    if k in s.workers {
      assert WorkerOk(s, s.workers[k]);
    }
    InvOneWorker(s, Next(s, step), k);
  }

  lemma StepKeepsInv(s: State, step: Step)
    requires Inv(s) && Enabled(s, step)
    ensures Inv(Next(s, step)) && Grows(s, Next(s, step))
  {
    match step {
      case ReadVersion(k) => VersionKeepsInv(s, k);
      case Lookup(k, parses) => LookupKeepsInv(s, k, parses);
      case Finish(k) => FinishKeepsInv(s, k);
      case ReadBlocks(k, _) => ReadKeepsInv(s, step, k);
      case ReadAllows(k, _) => ReadKeepsInv(s, step, k);
      case Store(k) => StoreKeepsInv(s, step, k);
      case Release(k) => StoreKeepsInv(s, step, k);
      case TryLock(k, fails) => assert fails || !fails; LockKeepsInv(s, step, k);
      case Abort(k) => LockKeepsInv(s, step, k);
      case Restart(k) => LockKeepsInv(s, step, k);
      case _ => EnvironmentKeepsInv(s, step);
    }
  }

  lemma {:induction false} RunKeepsInv(t: seq<State>, steps: seq<Step>, i: nat)
    requires IsRun(t, steps) && Inv(t[0]) && i <= |steps|
    ensures Inv(t[i])
  {
    if i > 0 {
      RunKeepsInv(t, steps, i - 1);
      StepKeepsInv(t[i - 1], steps[i - 1]);
    }
  }

  /***** Which version a load is for *****/

  /** The version a worker inside a load goes by. */
  function VersionOf(pc: Pc): int {
    if pc.Idle? then -1 else pc.version
  }

  /** The load `k` is in, or completes, at step i began by reading the version at
      step j. */
  ghost predicate Began(steps: seq<Step>, k: WorkerId, j: nat, i: nat) {
    && j <= i < |steps|
    && steps[j] == ReadVersion(k)
    && forall m | j < m <= i :: steps[m] != ReadVersion(k)
  }

  /** One step of a worker inside a load: it goes on with its version or stops. */
  lemma StepKeepsVersion(s: State, step: Step, k: WorkerId)
    requires Enabled(s, step) && k in s.workers && step != ReadVersion(k)
    ensures k in Next(s, step).workers
    ensures var pc := Next(s, step).workers[k].pc;
            pc.Idle? || (!s.workers[k].pc.Idle? && VersionOf(pc) == VersionOf(s.workers[k].pc))
  {
    if Actor(step) != Some(k) {
      OthersDoNotSetBack(s, step, k);
    } else {
      match step {
        case Lookup(_, _) =>
        case TryLock(_, _) =>
        case _ =>
      }
    }
  }

  /** A worker found inside a load read the version it goes by, then and there. */
  lemma {:induction false} InsideSince(t: seq<State>, steps: seq<Step>, i: nat, k: WorkerId) returns (j: nat)
    requires IsRun(t, steps) && Init(t[0]) && i < |steps|
    requires k in t[i].workers && !t[i].workers[k].pc.Idle? && steps[i] != ReadVersion(k)
    ensures Began(steps, k, j, i) && VersionOf(t[i].workers[k].pc) == Version(t[j])
  {
    var before, step := t[i - 1], steps[i - 1];
    assert t[i] == Next(before, step);
    if step == ReadVersion(k) {
      j := i - 1;
    } else {
      WasThere(before, step, k);
      StepKeepsVersion(before, step, k);
      j := InsideSince(t, steps, i - 1, k);
    }
  }

  /** Only a restart brings a worker in, and it comes in idle. */
  lemma WasThere(s: State, step: Step, k: WorkerId)
    requires Enabled(s, step) && k in Next(s, step).workers && !Next(s, step).workers[k].pc.Idle?
    ensures k in s.workers
  {
  }

  /** The step returns a load to worker k, for the version it goes by. */
  ghost predicate Returns(s: State, step: Step, k: WorkerId)
    requires Enabled(s, step)
  {
    var loads := Next(s, step).loads;
    && k in s.workers
    && |loads| == |s.loads| + 1 && s.loads <= loads
    && var l := loads[|s.loads|];
       && l.worker == k && l.at == s.now
       && (if step == ReadVersion(k) then l.version == Version(s)
           else !s.workers[k].pc.Idle? && l.version == s.workers[k].pc.version)
  }

  lemma StepReturns(s: State, step: Step)
    requires Enabled(s, step)
    ensures Next(s, step).loads == s.loads || (Actor(step).Some? && Returns(s, step, Actor(step).value))
  {
    match step {
      case ReadVersion(k) =>
      case Lookup(k, _) =>
      case Finish(k) =>
      case TryLock(_, _) =>
      case _ =>
    }
  }

  /** The nth load of a run was returned at step i and had begun at step j. */
  ghost predicate LoadSpans(t: seq<State>, steps: seq<Step>, n: nat, j: nat, i: nat)
    requires IsRun(t, steps)
  {
    && i < |steps| && n < |t[i + 1].loads| && |t[i].loads| == n
    && Began(steps, t[i + 1].loads[n].worker, j, i)
    && t[i + 1].loads[n].version == Version(t[j])
    && t[i + 1].loads[n].at == t[i].now
  }

  /** Every load is for the version the key held when that load began. */
  lemma LoadKnowsItsVersion(t: seq<State>, steps: seq<Step>, i: nat) returns (j: nat)
    requires IsRun(t, steps) && Init(t[0]) && i < |steps| && t[i + 1].loads != t[i].loads
    ensures LoadSpans(t, steps, |t[i].loads|, j, i) && t[i].loads <= t[i + 1].loads
    ensures |t[i + 1].loads| == |t[i].loads| + 1
  {
    StepReturns(t[i], steps[i]);
    var k := Actor(steps[i]).value;
    if steps[i] == ReadVersion(k) {
      j := i;
    } else {
      j := InsideSince(t, steps, i, k);
    }
  }

  lemma {:induction false} FindLoad(t: seq<State>, steps: seq<Step>, n: nat, e: nat) returns (j: nat, i: nat)
    requires IsRun(t, steps) && Init(t[0]) && e <= |steps| && n < |t[e].loads|
    ensures LoadSpans(t, steps, n, j, i) && i < e && t[e].loads[n] == t[i + 1].loads[n]
  {
    var last := e - 1;
    if t[e].loads == t[last].loads {
      j, i := FindLoad(t, steps, n, last);
    } else {
      j := LoadKnowsItsVersion(t, steps, last);
      if n < |t[last].loads| {
        j, i := FindLoad(t, steps, n, last);
      } else {
        i := last;
      }
    }
  }

  /***** Freshness *****/

  /** Where the current version's bump came is never set back. */
  lemma CoverStays(s: State, step: Step, n: int)
    requires Inv(s) && Enabled(s, step) && ((step.Bump? && n == |s.history| - 1) || n <= s.committed[Version(s)])
    ensures |Next(s, step).committed| > 0 && n <= Next(s, step).committed[Version(Next(s, step))]
  {
    match step {
      case Bump => assert s.committed[Version(s)] < |s.history|;
      case TryLock(_, _) =>
      case _ =>
    }
  }

  /** What was committed when an earlier bump came is no newer than what the
      current version stands for. */
  lemma {:induction false} BumpIsCovered(t: seq<State>, steps: seq<Step>, m: nat, j: nat)
    requires IsRun(t, steps) && Init(t[0]) && m < j <= |steps| && steps[m].Bump?
    ensures |t[j].committed| > 0 && |t[m].history| - 1 <= t[j].committed[Version(t[j])]
  {
    RunKeepsInv(t, steps, j - 1);
    if m < j - 1 {
      BumpIsCovered(t, steps, m, j - 1);
    }
    CoverStays(t[j - 1], steps[j - 1], |t[m].history| - 1);
  }

  /** State n of the history has every write whose bump came before step j. */
  ghost predicate HasBumpsBefore(t: seq<State>, steps: seq<Step>, j: nat, n: int)
    requires IsRun(t, steps)
  {
    forall m | 0 <= m < j && m < |steps| && steps[m].Bump? :: |t[m].history| - 1 <= n
  }

  /** Both halves of a rule set were read, up to a time, from such states. */
  ghost predicate FreshFrom(t: seq<State>, steps: seq<Step>, j: nat, upTo: Time, e: Entry)
    requires IsRun(t, steps)
  {
    var f := t[|steps|];
    && (exists n, u | 0 <= n < |f.history| && u <= upTo :: HasBumpsBefore(t, steps, j, n) && MayStore(f.history[n].block, u, e.block))
    && (exists n, u | 0 <= n < |f.history| && u <= upTo :: HasBumpsBefore(t, steps, j, n) && MayStore(f.history[n].allow, u, e.allow))
  }

  /**
   * Freshness. In every run, every load began by reading the version at some step
   * and was returned at some later one; what it returned was read from committed
   * states that include every write whose bump came before it began, whatever the
   * lock did, whatever expired and however the other workers were scheduled.
   */
  lemma LoadsAreFresh(t: seq<State>, steps: seq<Step>, n: nat) returns (j: nat, i: nat)
    requires IsRun(t, steps) && Init(t[0]) && n < |t[|steps|].loads|
    ensures LoadSpans(t, steps, n, j, i) && t[|steps|].loads[n] == t[i + 1].loads[n]
    ensures FreshFrom(t, steps, j, t[|steps|].loads[n].at, t[|steps|].loads[n].entry)
  {
    var f := t[|steps|];
    j, i := FindLoad(t, steps, n, |steps|);
    RunKeepsInv(t, steps, |steps|);
    var l := f.loads[n];
    CommittedStays(t, steps, j, |steps|);
    forall h: nat | f.committed[l.version] <= h ensures HasBumpsBefore(t, steps, j, h) {
      forall m | 0 <= m < j && steps[m].Bump? ensures |t[m].history| - 1 <= h {
        BumpIsCovered(t, steps, m, j);
      }
    }
    assert EntryFrom(f, l.version, l.at, l.entry);
  }

  lemma {:induction false} CommittedStays(t: seq<State>, steps: seq<Step>, j: nat, e: nat)
    requires IsRun(t, steps) && Init(t[0]) && j <= e <= |steps|
    ensures t[j].committed <= t[e].committed
  {
    if j < e {
      CommittedStays(t, steps, j, e - 1);
      RunKeepsInv(t, steps, e - 1);
      StepKeepsInv(t[e - 1], steps[e - 1]);
    }
  }

  /** What a load returned answers a request at any later time as the tables
      themselves would: the first block rule and the first allow rule it finds
      are answers, at that time, of committed states that include every write
      whose bump came before the load began. */
  lemma LoadAnswersLikeTheTables(t: seq<State>, steps: seq<Step>, n: nat, now: Time,
                                 blocks: CachedRule -> bool, allows: CachedRule -> bool)
      returns (j: nat, i: nat, h: nat, g: nat)
    requires IsRun(t, steps) && Init(t[0]) && n < |t[|steps|].loads|
    requires t[|steps|].loads[n].at <= now
    ensures LoadSpans(t, steps, n, j, i)
    ensures var f := t[|steps|];
            var e := f.loads[n].entry;
            && h < |f.history| && HasBumpsBefore(t, steps, j, h)
            && IsAnswer(f.history[h].block, now, blocks, FirstCached(e.block, now, blocks))
            && g < |f.history| && HasBumpsBefore(t, steps, j, g)
            && IsAnswer(f.history[g].allow, now, allows, FirstCached(e.allow, now, allows))
  {
    j, i := LoadsAreFresh(t, steps, n);
    var f := t[|steps|];
    var l := f.loads[n];
    var u, v;
    h, u :| h < |f.history| && u <= l.at && HasBumpsBefore(t, steps, j, h) && MayStore(f.history[h].block, u, l.entry.block);
    StoredListAnswers(f.history[h].block, u, now, l.entry.block, blocks);
    g, v :| g < |f.history| && v <= l.at && HasBumpsBefore(t, steps, j, g) && MayStore(f.history[g].allow, v, l.entry.allow);
    StoredListAnswers(f.history[g].allow, v, now, l.entry.allow, allows);
  }

  /***** A write whose bump came before its commit is not covered *****/

  predicate WriterStep(step: Step) { step.Commit? || step.Bump? || step.Tick? }

  /** The rule set a rebuild with nothing in its way builds. */
  function EntryNow(s: State): Entry
    requires |s.history| > 0
  {
    var last := s.history[|s.history| - 1];
    Entry(Snapshot(last.block, s.now), Snapshot(last.allow, s.now))
  }

  lemma RunsConcat(t: seq<State>, a: seq<Step>, u: seq<State>, b: seq<Step>)
    requires IsRun(t, a) && IsRun(u, b) && t[|a|] == u[0]
    ensures IsRun(t + u[1..], a + b) && (t + u[1..])[|a + b|] == u[|b|]
  {
    var w := t + u[1..];
    forall i | 0 <= i < |a + b| ensures Enabled(w[i], (a + b)[i]) && w[i + 1] == Next(w[i], (a + b)[i]) {
      if i >= |a| {
        assert w[i] == u[i - |a|] && w[i + 1] == u[i + 1 - |a|] && (a + b)[i] == b[i - |a|];
      }
    }
  }

  /** Writers leave every cache alone, and behave the same whatever the caches
      hold: their run can be replayed beside any others. */
  lemma WritersReplay(t: seq<State>, steps: seq<Step>, s: State) returns (u: seq<State>)
    requires IsRun(t, steps) && forall i :: 0 <= i < |steps| ==> WriterStep(steps[i])
    requires s.now == t[0].now && s.history == t[0].history && s.committed == t[0].committed
    ensures IsRun(u, steps) && u[0] == s
    ensures u[|steps|] == s.(now := t[|steps|].now, history := t[|steps|].history, committed := t[|steps|].committed)
  {
    u := seq(|t|, i requires 0 <= i < |t| => s.(now := t[i].now, history := t[i].history, committed := t[i].committed));
    forall i | 0 <= i < |steps| ensures Enabled(u[i], steps[i]) && u[i + 1] == Next(u[i], steps[i]) {
      assert Enabled(t[i], steps[i]) && t[i + 1] == Next(t[i], steps[i]);
    }
  }

  /** Without a bump the version stays, and commits only add. */
  lemma {:induction false} WritersOnly(t: seq<State>, steps: seq<Step>, i: nat)
    requires IsRun(t, steps) && i <= |steps| && forall j :: 0 <= j < |steps| ==> WriterStep(steps[j])
    ensures t[0].history <= t[i].history && t[0].committed <= t[i].committed
    ensures t[i] == t[0].(now := t[i].now, history := t[i].history, committed := t[i].committed)
    ensures (forall j :: 0 <= j < i ==> !steps[j].Bump?) ==> t[i].committed == t[0].committed
  {
    if i > 0 {
      WritersOnly(t, steps, i - 1);
      assert t[i] == Next(t[i - 1], steps[i - 1]);
    }
  }

  /** A worker with an empty cache finds nothing in Redis, */
  lemma ColdLookup(s: State, k: WorkerId) returns (t: seq<State>)
    requires |s.committed| > 0 && k in s.workers && s.workers[k] == Worker(None, Idle)
    requires Version(s) !in s.redis
    ensures IsRun(t, [ReadVersion(k), Lookup(k, true), TryLock(k, true)]) && t[0] == s
    ensures t[3] == s.(workers := s.workers[k := Worker(None, ReadingBlock(|s.committed| - 1, false))])
  {
    var v := |s.committed| - 1;
    var s1 := s.(workers := s.workers[k := Worker(None, HasVersion(v))]);
    var s2 := s.(workers := s.workers[k := Worker(None, Locking(v, 0))]);
    var s3 := s.(workers := s.workers[k := Worker(None, ReadingBlock(v, false))]);
    assert Next(s, ReadVersion(k)) == s1;
    assert Next(s1, Lookup(k, true)) == s2;
    assert Next(s2, TryLock(k, true)) == s3;
    t := [s, s1, s2, s3];
  }

  /** The steps of a rebuild whose queries are answered in table order. */
  function Rebuild(s: State, k: WorkerId): seq<Step>
    requires |s.history| > 0
  {
    var last := s.history[|s.history| - 1];
    [ReadBlocks(k, Active(last.block, s.now)), ReadAllows(k, Active(last.allow, s.now)), Store(k)]
  }

  lemma BlocksRead(s: State, k: WorkerId, v: nat)
    requires |s.history| > 0 && k in s.workers && s.workers[k] == Worker(None, ReadingBlock(v, false))
    ensures Enabled(s, Rebuild(s, k)[0])
    ensures Next(s, Rebuild(s, k)[0]) == s.(workers := s.workers[k := Worker(None, ReadingAllow(v, false, EntryNow(s).block))])
  {
    ActiveMayAnswer(s.history[|s.history| - 1].block, s.now);
  }

  lemma AllowsRead(s: State, k: WorkerId, v: nat)
    requires |s.history| > 0 && k in s.workers && s.workers[k] == Worker(None, ReadingAllow(v, false, EntryNow(s).block))
    ensures Enabled(s, Rebuild(s, k)[1])
    ensures Next(s, Rebuild(s, k)[1]) == s.(workers := s.workers[k := Worker(None, Storing(v, false, EntryNow(s)))])
  {
    ActiveMayAnswer(s.history[|s.history| - 1].allow, s.now);
  }

  lemma EntryStored(s: State, k: WorkerId, v: nat)
    requires |s.history| > 0 && k in s.workers && s.workers[k] == Worker(None, Storing(v, false, EntryNow(s)))
    ensures Enabled(s, Store(k))
    ensures Next(s, Store(k)) == s.(redis := s.redis[v := EntryNow(s)],
                                    workers := s.workers[k := Worker(None, Releasing(v, false, EntryNow(s)))])
  {
  }

  /** and stores what the database answers it. */
  lemma ColdRebuild(s: State, k: WorkerId, v: nat) returns (t: seq<State>)
    requires |s.history| > 0 && k in s.workers && s.workers[k] == Worker(None, ReadingBlock(v, false))
    ensures IsRun(t, Rebuild(s, k)) && t[0] == s
    ensures t[3] == s.(redis := s.redis[v := EntryNow(s)],
                       workers := s.workers[k := Worker(None, Releasing(v, false, EntryNow(s)))])
  {
    var steps := Rebuild(s, k);
    BlocksRead(s, k, v);
    var s1 := Next(s, steps[0]);
    assert Rebuild(s1, k) == steps && EntryNow(s1) == EntryNow(s);
    AllowsRead(s1, k, v);
    var s2 := Next(s1, steps[1]);
    assert EntryNow(s2) == EntryNow(s);
    EntryStored(s2, k, v);
    t := [s, s1, s2, Next(s2, steps[2])];
  }

  /** Together: whoever comes first to a version fills Redis with the tables as they
      stand. */
  lemma ColdFill(s: State, k: WorkerId) returns (t: seq<State>, steps: seq<Step>)
    requires |s.committed| > 0 && |s.history| > 0 && k in s.workers && s.workers[k] == Worker(None, Idle)
    requires Version(s) !in s.redis
    ensures IsRun(t, steps) && t[0] == s
    ensures t[|steps|] == s.(redis := s.redis[|s.committed| - 1 := EntryNow(s)],
                             workers := s.workers[k := Worker(None, Releasing(|s.committed| - 1, false, EntryNow(s)))])
  {
    var t1 := ColdLookup(s, k);
    var lookup := [ReadVersion(k), Lookup(k, true), TryLock(k, true)];
    var t2 := ColdRebuild(t1[3], k, |s.committed| - 1);
    assert EntryNow(t1[3]) == EntryNow(s);
    RunsConcat(t1, lookup, t2, Rebuild(t1[3], k));
    t, steps := t1 + t2[1..], lookup + Rebuild(t1[3], k);
  }

  /** A worker with an empty cache takes the entry Redis has. */
  lemma WarmLoad(s: State, k: WorkerId) returns (t: seq<State>)
    requires |s.committed| > 0 && k in s.workers && s.workers[k] == Worker(None, Idle)
    requires Version(s) in s.redis
    ensures IsRun(t, [ReadVersion(k), Lookup(k, true)]) && t[0] == s
    ensures t[2].loads == s.loads + [Load(k, |s.committed| - 1, s.redis[Version(s)], s.now)]
    ensures t[2].now == s.now && t[2].history == s.history && t[2].committed == s.committed
  {
    var s1 := Next(s, ReadVersion(k));
    t := [s, s1, Next(s1, Lookup(k, true))];
  }

  /**
   * The bound of LoadsAreFresh cannot be moved. Take any writer history cut in
   * two so that no bump follows the cut, as when a save inside an open
   * transaction bumps the version first and commits afterwards. There is a run
   * of that same history in which a worker reads the version after all of it
   * and is given the rules as they stood at the cut: it misses every commit
   * made after it.
   */
  lemma CommitAfterLastBumpIsMissed(pre: seq<State>, preSteps: seq<Step>, post: seq<State>, postSteps: seq<Step>,
                                    a: WorkerId, b: WorkerId)
      returns (t: seq<State>, steps: seq<Step>)
    requires IsRun(pre, preSteps) && IsRun(post, postSteps) && pre[|preSteps|] == post[0]
    requires Init(pre[0]) && a in pre[0].workers && b in pre[0].workers && a != b
    requires forall i :: 0 <= i < |preSteps| ==> WriterStep(preSteps[i])
    requires forall i :: 0 <= i < |postSteps| ==> WriterStep(postSteps[i]) && !postSteps[i].Bump?
    ensures IsRun(t, steps) && t[0] == pre[0]
    ensures var f := t[|steps|];
            && f.history == post[|postSteps|].history
            && f.committed == post[|postSteps|].committed
            && |f.loads| == 1
            && f.loads[0].version == Version(f) && f.loads[0].at == f.now
            && |post[0].history| > 0 && f.loads[0].entry == EntryNow(post[0])
  {
    WritersOnly(pre, preSteps, |preSteps|);
    WritersOnly(post, postSteps, |postSteps|);
    var cut := post[0];
    var t1, fill := ColdFill(cut, a);
    var t3 := WritersReplay(post, postSteps, t1[|fill|]);
    var t4 := WarmLoad(t3[|postSteps|], b);
    RunsConcat(pre, preSteps, t1, fill);
    t, steps := pre + t1[1..], preSteps + fill;
    RunsConcat(t, steps, t3, postSteps);
    t, steps := t + t3[1..], steps + postSteps;
    RunsConcat(t, steps, t4, [ReadVersion(b), Lookup(b, true)]);
    t, steps := t + t4[1..], steps + [ReadVersion(b), Lookup(b, true)];
  }

  /***** The lock never holds a load up *****/

  /** How many of its own steps a worker still needs at most. */
  function Remaining(pc: Pc): (r: nat)
    ensures r <= 10 && (r == 0 <==> pc.Idle?)
  {
    match pc
    case Idle => 0
    case HasVersion(_) => 10
    case Locking(_, attempt) => if attempt <= LOCK_RETRIES then 9 - attempt else 6
    case ReadingBlock(_, _) => 5
    case ReadingAllow(_, _, _) => 4
    case Storing(_, _, _) => 3
    case Releasing(_, _, _) => 2
    case Finishing(_, _) => 1
  }

  function Actor(step: Step): Option<WorkerId> {
    match step
    case ReadVersion(k) => Some(k)
    case Lookup(k, _) => Some(k)
    case TryLock(k, _) => Some(k)
    case ReadBlocks(k, _) => Some(k)
    case ReadAllows(k, _) => Some(k)
    case Store(k) => Some(k)
    case Release(k) => Some(k)
    case Finish(k) => Some(k)
    case Abort(k) => Some(k)
    case Restart(k) => Some(k)
    case _ => None
  }

  /** A worker inside a load always has a step it can take, */
  lemma LoadsNeverWait(s: State, k: WorkerId)
    requires Inv(s) && k in s.workers && !s.workers[k].pc.Idle?
    ensures exists own | IsLoadStep(own) && Actor(own) == Some(k) :: Enabled(s, own)
  {
    var last := s.history[|s.history| - 1];
    ActiveMayAnswer(last.block, s.now);
    ActiveMayAnswer(last.allow, s.now);
    var own := match s.workers[k].pc
      case HasVersion(_) => Lookup(k, true)
      case Locking(_, _) => TryLock(k, false)
      case ReadingBlock(_, _) => ReadBlocks(k, Active(last.block, s.now))
      case ReadingAllow(_, _, _) => ReadAllows(k, Active(last.allow, s.now))
      case Storing(_, _, _) => Store(k)
      case Releasing(_, _, _) => Release(k)
      case _ => Finish(k);
    assert IsLoadStep(own) && Actor(own) == Some(k) && Enabled(s, own);
  }

  /** each of its own steps brings it strictly closer to the end, */
  lemma OwnStepsCount(s: State, step: Step, k: WorkerId)
    requires k in s.workers && PcOk(s, s.workers[k].pc) && Enabled(s, step) && Actor(step) == Some(k)
    requires !s.workers[k].pc.Idle?
    ensures k in Next(s, step).workers
    ensures Remaining(Next(s, step).workers[k].pc) < Remaining(s.workers[k].pc)
  {
    match step {
      case Lookup(_, _) =>
      case TryLock(_, _) =>
      case _ =>
    }
  }

  /** and nothing anyone else does sets it back. */
  lemma OthersDoNotSetBack(s: State, step: Step, k: WorkerId)
    requires k in s.workers && Enabled(s, step) && Actor(step) != Some(k)
    ensures k in Next(s, step).workers && Next(s, step).workers[k] == s.workers[k]
  {
    match step {
      case Lookup(_, _) =>
      case TryLock(_, _) =>
      case _ =>
    }
  }

  /** How many of the steps from i up to e are the worker's own. */
  function OwnSteps(steps: seq<Step>, k: WorkerId, i: nat, e: nat): nat
    requires i <= e <= |steps|
  {
    if i == e then 0 else OwnSteps(steps, k, i, e - 1) + if Actor(steps[e - 1]) == Some(k) then 1 else 0
  }

  ghost predicate InsideAt(s: State, k: WorkerId) { k in s.workers && !s.workers[k].pc.Idle? }

  ghost function Left(s: State, k: WorkerId): nat { if k in s.workers then Remaining(s.workers[k].pc) else 0 }

  lemma {:induction false} OwnStepsAreFew(t: seq<State>, steps: seq<Step>, k: WorkerId, i: nat, e: nat)
    requires IsRun(t, steps) && Init(t[0]) && i <= e <= |steps|
    requires forall m | i <= m <= e :: InsideAt(t[m], k)
    ensures OwnSteps(steps, k, i, e) + Left(t[e], k) <= Left(t[i], k)
  {
    if i < e {
      OwnStepsAreFew(t, steps, k, i, e - 1);
      var s, step := t[e - 1], steps[e - 1];
      assert InsideAt(s, k) && t[e] == Next(s, step);
      if Actor(step) == Some(k) {
        RunKeepsInv(t, steps, e - 1);
        assert WorkerOk(s, s.workers[k]);
        OwnStepsCount(s, step, k);
      } else {
        OthersDoNotSetBack(s, step, k);
      }
    }
  }

  /**
   * A load ends. In every run, whoever holds the lock and however long, a worker
   * that has read the version is out of the load by its tenth step after that;
   * and by LoadsNeverWait it can always take the next one.
   */
  lemma LoadEnds(t: seq<State>, steps: seq<Step>, k: WorkerId, i: nat, e: nat) returns (m: nat)
    requires IsRun(t, steps) && Init(t[0]) && i <= e <= |steps|
    requires k in t[i].workers && OwnSteps(steps, k, i, e) >= 10
    ensures i <= m <= e && !InsideAt(t[m], k)
  {
    if forall n | i <= n <= e :: InsideAt(t[n], k) {
      OwnStepsAreFew(t, steps, k, i, e);
      assert false;
    }
    m :| i <= m <= e && !InsideAt(t[m], k);
  }

  /***** What the lock is worth *****/

  /** What a worker does about the lock and the entry: a readable entry is returned,
      a missing or unreadable one is rebuilt; the lock is taken if it is free, waited
      for three times if it is not, and done without after that or if Redis fails. */
  lemma LockTable(s: State, k: WorkerId, parses: bool, redisFails: bool)
    requires k in s.workers
    ensures var pc := s.workers[k].pc;
            && (pc.HasVersion? ==>
                  && Enabled(s, Lookup(k, parses))
                  && Next(s, Lookup(k, parses)).workers[k] ==
                       (if pc.version in s.redis && parses then Worker(Some(ProcessCache(pc.version, s.redis[pc.version])), Idle)
                        else s.workers[k].(pc := Locking(pc.version, 0))))
            && (pc.Locking? ==>
                  && Enabled(s, TryLock(k, redisFails))
                  && Next(s, TryLock(k, redisFails)).workers[k].pc ==
                       (if redisFails then ReadingBlock(pc.version, false)
                        else if !s.lock then ReadingBlock(pc.version, true)
                        else if pc.attempt < 3 then Locking(pc.version, pc.attempt + 1)
                        else ReadingBlock(pc.version, false))
                  && Next(s, TryLock(k, redisFails)).lock == (s.lock || !redisFails))
  {
  }

  /** The worker is rebuilding with the lock in its hand. */
  predicate Holder(w: Worker) {
    match w.pc
    case ReadingBlock(_, held) => held
    case ReadingAllow(_, held, _) => held
    case Storing(_, held, _) => held
    case Releasing(_, held, _) => held
    case _ => false
  }

  /** One holder at most, and the lock is taken while there is one. */
  ghost predicate LockOk(s: State) {
    forall k :: k in s.workers && Holder(s.workers[k]) ==> s.lock && forall j :: j in s.workers && Holder(s.workers[j]) ==> j == k
  }

  lemma OneWorkerLockOk(s: State, s': State, k: WorkerId)
    requires LockOk(s) && k in s'.workers && s'.workers == s.workers[k := s'.workers[k]]
    requires Holder(s'.workers[k]) ==> s'.lock && ((k in s.workers && Holder(s.workers[k])) || !s.lock)
    requires s'.lock == s.lock || (s'.lock && !s.lock) || (k in s.workers && Holder(s.workers[k]))
    ensures LockOk(s')
  {
    forall a | a in s'.workers && Holder(s'.workers[a])
      ensures s'.lock && forall j :: j in s'.workers && Holder(s'.workers[j]) ==> j == a
    {
      if a != k {
        assert a in s.workers && s'.workers[a] == s.workers[a];
      }
    }
  }

  lemma StepKeepsLock(s: State, step: Step)
    requires LockOk(s) && Enabled(s, step) && !step.LockExpires?
    ensures LockOk(Next(s, step))
  {
    if Actor(step).Some? {
      ActorLock(s, step, Actor(step).value);
      OneWorkerLockOk(s, Next(s, step), Actor(step).value);
    }
  }

  lemma ActorLock(s: State, step: Step, k: WorkerId)
    requires Enabled(s, step) && Actor(step) == Some(k)
    ensures var s' := Next(s, step);
            && k in s'.workers && s'.workers == s.workers[k := s'.workers[k]]
            && (LockOk(s) ==>
                  && (Holder(s'.workers[k]) ==> s'.lock && ((k in s.workers && Holder(s.workers[k])) || !s.lock))
                  && (s'.lock == s.lock || (s'.lock && !s.lock) || (k in s.workers && Holder(s.workers[k]))))
  {
    match step {
      case Lookup(_, _) =>
      case TryLock(_, _) =>
      case Release(_) =>
      case _ =>
    }
  }

  /**
   * One rebuild at a time. In every run up to a step before which the lock has not
   * expired, at most one worker is rebuilding with the lock in its hand, and the
   * lock is taken while it is; whoever rebuilds beside it gave up waiting or lost
   * Redis.
   */
  lemma {:induction false} OneRebuildAtATime(t: seq<State>, steps: seq<Step>, i: nat)
    requires IsRun(t, steps) && Init(t[0]) && i <= |steps|
    requires forall m | 0 <= m < i :: !steps[m].LockExpires?
    ensures LockOk(t[i])
  {
    if i > 0 {
      OneRebuildAtATime(t, steps, i - 1);
      assert !steps[i - 1].LockExpires?;
      StepKeepsLock(t[i - 1], steps[i - 1]);
    }
  }
}
