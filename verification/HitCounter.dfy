/**
 * The hit counters of the block rules: the producer `_record_rule_hit`
 * (src/django_waf/services/rule_engine.py), the consumer
 * `flush_rule_hit_counts` (src/django_waf/tasks.py) and the liveness probe that
 * drives both inside a transaction it rolls back
 * (src/django_waf/services/flush_probe.py).
 *
 * Redis does not roll back; the database does.
 */
module HitCounter {
  import opened Wrappers
  import opened Rules

  type Counters = map<RuleId, nat>

  function Count(m: Counters, id: RuleId): nat { if id in m then m[id] else 0 }

  function Recorded(m: Counters, id: RuleId): Counters { m[id := Count(m, id) + 1] }

  /** The counters a flush moves: those it can read and that are above zero. */
  ghost predicate Moves(pending: Counters, unreadable: set<RuleId>, id: RuleId) {
    id in pending && id !in unreadable && pending[id] > 0
  }

  /** The rows after a flush of the counters `done`. */
  ghost function FlushedRows(rows: Counters, pending: Counters, unreadable: set<RuleId>, unwritable: set<RuleId>, done: set<RuleId>): Counters {
    map id | id in rows ::
      rows[id] + if id in done && Moves(pending, unreadable, id) && id !in unwritable then pending[id] else 0
  }

  /** The counters left by it: the ones it could not read. */
  ghost function FlushedPending(pending: Counters, unreadable: set<RuleId>, done: set<RuleId>): Counters {
    map id | id in pending && (id !in done || id in unreadable) :: pending[id]
  }

  /** The counters after those of `done` have been put back. */
  ghost function PutBack(pending: Counters, snapshot: Counters, done: set<RuleId>): Counters {
    pending + map id | id in snapshot && id in done && snapshot[id] > 0 :: snapshot[id]
  }

  lemma OneMoreBack(pending: Counters, snapshot: Counters, done: set<RuleId>, id: RuleId)
    requires id in snapshot
    ensures PutBack(pending, snapshot, done + {id}) ==
              if snapshot[id] > 0 then PutBack(pending, snapshot, done)[id := snapshot[id]] else PutBack(pending, snapshot, done)
  {
  }

  lemma OneMoreRestored(pending: Counters, snapshot: Counters, done: set<RuleId>, unrestored: set<RuleId>, id: RuleId)
    requires id in snapshot
    ensures PutBack(pending, snapshot, done + {id} - unrestored) ==
              if snapshot[id] > 0 && id !in unrestored then PutBack(pending, snapshot, done - unrestored)[id := snapshot[id]]
              else PutBack(pending, snapshot, done - unrestored)
  {
    if id in unrestored {
      assert done + {id} - unrestored == done - unrestored;
    } else {
      assert done + {id} - unrestored == (done - unrestored) + {id};
      OneMoreBack(pending, snapshot, done - unrestored, id);
    }
  }

  /** A loop over `all` has dealt with `done` and has `todo` to go. */
  ghost predicate Divided(todo: set<RuleId>, done: set<RuleId>, all: set<RuleId>) {
    && (forall id :: id in all <==> id in todo || id in done)
    && (forall id :: id in todo ==> id !in done)
    && (todo == {} ==> done == all)
  }

  lemma Shift(todo: set<RuleId>, done: set<RuleId>, all: set<RuleId>, id: RuleId)
    requires Divided(todo, done, all) && id in todo
    ensures Divided(todo - {id}, done + {id}, all)
  {
    var todo', done' := todo - {id}, done + {id};
    if todo' == {} {
      forall k ensures k in done' <==> k in all {
        assert k in todo ==> k == id || k in todo';
      }
      assert done' == all;
    }
  }

  /** What one turn of the flush loop comes to. */
  datatype Turn = Failed | Moved | Skipped

  function TurnOf(pending: Counters, rows: Counters, unreadable: set<RuleId>, unwritable: set<RuleId>, id: RuleId): Turn {
    if id in unreadable then Failed
    else if Count(pending, id) == 0 then Skipped
    else if id in unwritable then Failed
    else if id in rows then Moved
    else Skipped
  }

  ghost function Turns(pending: Counters, rows: Counters, unreadable: set<RuleId>, unwritable: set<RuleId>, done: set<RuleId>, turn: Turn): set<RuleId> {
    set id | id in done && TurnOf(pending, rows, unreadable, unwritable, id) == turn
  }

  lemma StartOfFlush(rows: Counters, pending: Counters, unreadable: set<RuleId>, unwritable: set<RuleId>)
    ensures FlushedRows(rows, pending, unreadable, unwritable, {}) == rows
    ensures FlushedPending(pending, unreadable, {}) == pending
    ensures forall turn :: Turns(pending, rows, unreadable, unwritable, {}, turn) == {}
  {
  }

  /** One turn of the loop is one more key done: in the rows, */
  lemma OneMoreRow(rows: Counters, pending: Counters, unreadable: set<RuleId>, unwritable: set<RuleId>, done: set<RuleId>, id: RuleId)
    requires id in pending && id !in done
    ensures var was := FlushedRows(rows, pending, unreadable, unwritable, done);
            && FlushedRows(rows, pending, unreadable, unwritable, done + {id}) ==
                 (if TurnOf(pending, rows, unreadable, unwritable, id).Moved? then was[id := was[id] + pending[id]] else was)
            && was.Keys == rows.Keys
  {
  }

  /** in the counters, */
  lemma OneMoreKey(pending: Counters, unreadable: set<RuleId>, done: set<RuleId>, id: RuleId)
    requires id in pending && id !in done
    ensures var was := FlushedPending(pending, unreadable, done);
            && id in was && was[id] == pending[id]
            && FlushedPending(pending, unreadable, done + {id}) == (if id in unreadable then was else was - {id})
  {
  }

  /** and in the tallies. */
  lemma OneMoreTurn(rows: Counters, pending: Counters, unreadable: set<RuleId>, unwritable: set<RuleId>, done: set<RuleId>, id: RuleId, turn: Turn)
    requires id in pending && id !in done
    ensures |Turns(pending, rows, unreadable, unwritable, done + {id}, turn)| ==
              |Turns(pending, rows, unreadable, unwritable, done, turn)|
              + if TurnOf(pending, rows, unreadable, unwritable, id) == turn then 1 else 0
  {
    assert Turns(pending, rows, unreadable, unwritable, done + {id}, turn) ==
             Turns(pending, rows, unreadable, unwritable, done, turn)
             + if TurnOf(pending, rows, unreadable, unwritable, id) == turn then {id} else {};
  }

  /** A write raises on one of these keys. */
  ghost predicate WriteFails(pending: Counters, unreadable: set<RuleId>, unwritable: set<RuleId>, done: set<RuleId>) {
    exists id | id in done :: Moves(pending, unreadable, id) && id in unwritable
  }

  datatype FlushReport = FlushReport(flushed: nat, keysSeen: nat, errors: nat)
  datatype ProbeReport = ProbeReport(alive: bool, flush: FlushReport, delta: nat, keyDeleted: bool)

  /**
   * What can go wrong in a probe, call by call. Listing the keys fails for the
   * snapshot or for the flush; reading one fails in the snapshot, or read and
   * clear fail in the flush; writing a row fails; recording the probe's own hit,
   * confirming that its key is gone or deleting it fails; setting a counter back
   * fails.
   */
  datatype Faults = Faults(
    snapshotUnlisted: bool,
    unsnapped: set<RuleId>,
    unrecorded: bool,
    flushUnlisted: bool,
    unreadable: set<RuleId>,
    unwritable: set<RuleId>,
    unconfirmed: bool,
    undeleted: bool,
    unrestored: set<RuleId>)

  /** The shared state: the `waf:rule_hits:*` keys and the `hit_count` column. */
  class HitStore {
    var pending: Counters
    var hitCount: Counters

    /** INCR starts a missing key from zero, so a counter that is there is
        positive. */
    ghost predicate Valid()
      reads this
    {
      forall id :: id in pending ==> pending[id] > 0
    }

    constructor (rows: Counters)
      ensures Valid() && pending == map[] && hitCount == rows
    {
      pending := map[];
      hitCount := rows;
    }

    /** `_record_rule_hit`. */
    method RecordHit(id: RuleId)
      requires Valid()
      modifies this
      ensures Valid() && hitCount == old(hitCount) && pending == Recorded(old(pending), id)
    {
      pending := pending[id := Count(pending, id) + 1];
    }

    /** One turn of the flush loop: GET and DEL of one key, then the row, which the
        database may refuse. */
    method FlushKey(id: RuleId, unreadable: set<RuleId>, refused: bool) returns (turn: Turn)
      requires id in pending
      modifies this
      ensures turn == TurnOf(old(pending), old(hitCount), unreadable, if refused then {id} else {}, id)
      ensures pending == if id in unreadable then old(pending) else old(pending) - {id}
      ensures hitCount == if turn.Moved? then old(hitCount)[id := old(hitCount)[id] + old(pending)[id]] else old(hitCount)
    {
      if id in unreadable {
        return Failed;
      }
      var count := pending[id];
      pending := pending - {id};
      if count <= 0 {
        return Skipped;
      }
      if refused {
        return Failed;
      }
      if id !in hitCount {
        return Skipped;
      }
      hitCount := hitCount[id := hitCount[id] + count];
      return Moved;
    }

    /**
     * `flush_rule_hit_counts`. Reading a counter in `unreadable`, and writing a
     * count to a rule in `unwritable`, raises; the flush goes on to the next
     * key. A count read and then not written is gone. Inside a transaction a
     * failed write breaks it, and every later write is refused too.
     */
    method Flush(unlisted: bool, unreadable: set<RuleId>, unwritable: set<RuleId>, inTransaction: bool)
        returns (report: FlushReport, broken: bool)
      modifies this
      ensures unlisted ==> pending == old(pending) && hitCount == old(hitCount) && report == FlushReport(0, 0, 1) && !broken
      ensures !unlisted ==>
                && pending == FlushedPending(old(pending), unreadable, old(pending).Keys)
                && report.keysSeen == |old(pending).Keys|
                && (broken <==> inTransaction && WriteFails(old(pending), unreadable, unwritable, old(pending).Keys))
      ensures !unlisted && !broken ==>
                && hitCount == FlushedRows(old(hitCount), old(pending), unreadable, unwritable, old(pending).Keys)
                && report.errors == |Turns(old(pending), old(hitCount), unreadable, unwritable, old(pending).Keys, Failed)|
                && report.flushed == |Turns(old(pending), old(hitCount), unreadable, unwritable, old(pending).Keys, Moved)|
    {
      broken := false;
      if unlisted {
        report := FlushReport(0, 0, 1);
        return;
      }
      ghost var start, rows := pending, hitCount;
      var todo := pending.Keys;
      var keysSeen, flushed, errors := |todo|, 0, 0;
      ghost var done: set<RuleId> := {};
      StartOfFlush(rows, start, unreadable, unwritable);
      while todo != {}
        invariant Divided(todo, done, start.Keys)
        invariant pending == FlushedPending(start, unreadable, done)
        invariant broken <==> inTransaction && WriteFails(start, unreadable, unwritable, done)
        invariant !broken ==> Progress(rows, start, unreadable, unwritable, done, hitCount, errors, flushed)
        decreases |todo|
      {
        var id :| id in todo;
        OneMoreKey(start, unreadable, done, id);
        OneMoreWrite(start, unreadable, unwritable, done, id);
        if !broken {
          OneMoreFlushed(rows, start, unreadable, unwritable, done, hitCount, errors, flushed, id);
        }
        Shift(todo, done, start.Keys, id);
        done := done + {id};
        todo := todo - {id};
        var turn := FlushKey(id, unreadable, broken || id in unwritable);
        if turn.Failed? {
          errors := errors + 1;
        } else if turn.Moved? {
          flushed := flushed + 1;
        }
        broken := broken || (inTransaction && turn.Failed? && id !in unreadable);
      }
      report := FlushReport(flushed, keysSeen, errors);
    }

    /** `_snapshot_other_keys`: every counter that could be read but the probe's
        own, and nothing if the keys could not be listed. */
    method SnapshotOthers(exclude: RuleId, f: Faults) returns (snapshot: Counters)
      ensures snapshot == Snapshotted(pending, exclude, f)
    {
      snapshot := map[];
      if f.snapshotUnlisted {
        return;
      }
      var todo := pending.Keys;
      ghost var done: set<RuleId> := {};
      while todo != {}
        invariant Divided(todo, done, pending.Keys)
        invariant snapshot == map id | id in pending && id in done && id != exclude && id !in f.unsnapped :: pending[id]
        decreases |todo|
      {
        var id :| id in todo;
        Shift(todo, done, pending.Keys, id);
        todo := todo - {id};
        if id != exclude && id !in f.unsnapped {
          snapshot := snapshot[id := pending[id]];
        }
        done := done + {id};
      }
    }

    /** `_reconcile_other_keys`: every snapshotted counter is put back, but those
        whose write fails. */
    method ReconcileOthers(snapshot: Counters, unrestored: set<RuleId>)
      modifies this
      ensures hitCount == old(hitCount)
      ensures pending == PutBack(old(pending), snapshot, snapshot.Keys - unrestored)
    {
      ghost var start := pending;
      var todo := snapshot.Keys;
      ghost var done: set<RuleId> := {};
      while todo != {}
        invariant Divided(todo, done, snapshot.Keys)
        invariant hitCount == old(hitCount)
        invariant pending == PutBack(start, snapshot, done - unrestored)
        decreases |todo|
      {
        var id :| id in todo;
        Shift(todo, done, snapshot.Keys, id);
        todo := todo - {id};
        if snapshot[id] > 0 && id !in unrestored {
          pending := pending[id := snapshot[id]];
        }
        OneMoreRestored(start, snapshot, done, unrestored, id);
        done := done + {id};
      }
    }

    /**
     * `run_flush_probe`. None is the exception a broken transaction raises when
     * the probe's row is read back; the row is rolled back, the probe's key
     * deleted and the others put back all the same.
     *
     * Every row is left as it was, whatever fails. The counters are left as
     * AfterProbe says. It raises exactly when the flush fails to write a row,
     * anyone's row; and otherwise it reports the path alive exactly when its own
     * hit went in and out and that could be seen.
     */
    method Probe(probe: RuleId, f: Faults) returns (report: Option<ProbeReport>)
      requires Valid() && probe !in pending && probe !in hitCount
      modifies this
      ensures Valid() && hitCount == old(hitCount)
      ensures pending == AfterProbe(old(pending), probe, f)
      ensures report.None? <==> !f.flushUnlisted && WriteFails(Hit(old(pending), probe, f), f.unreadable, f.unwritable, Hit(old(pending), probe, f).Keys)
      ensures report.Some? ==>
                && (report.value.alive <==> !f.unrecorded && !f.flushUnlisted && probe !in f.unreadable && !f.unconfirmed)
                && report.value.delta == (if !f.unrecorded && !f.flushUnlisted && probe !in f.unreadable then 1 else 0)
                && report.value.flush.keysSeen == (if f.flushUnlisted then 0 else |Hit(old(pending), probe, f).Keys|)
    {
      ghost var was := pending;
      var savepoint := hitCount;
      hitCount := hitCount[probe := 0];
      var snapshot := SnapshotOthers(probe, f);
      if !f.unrecorded {
        RecordHit(probe);
      }
      ghost var hit, rows := pending, hitCount;
      var flushed, broken := Flush(f.flushUnlisted, f.unreadable, f.unwritable, true);
      if !broken {
        if !f.flushUnlisted {
          DeltaIs(rows, hit, f, probe);
        }
        var delta, keyDeleted := hitCount[probe], !f.unconfirmed && probe !in pending;
        report := Some(ProbeReport(delta == 1 && keyDeleted, flushed, delta, keyDeleted));
      } else {
        report := None;
      }
      hitCount := savepoint;
      if !f.undeleted {
        pending := pending - {probe};
      }
      ReconcileOthers(snapshot, f.unrestored);
      ProbeRestores(was, probe, f);
    }
  }

  /** The counters with the probe's own hit, if it could be recorded. */
  function Hit(pending: Counters, probe: RuleId, f: Faults): Counters {
    if f.unrecorded then pending else Recorded(pending, probe)
  }

  ghost function Snapshotted(pending: Counters, exclude: RuleId, f: Faults): Counters {
    map id | id in pending && id != exclude && id !in f.unsnapped && !f.snapshotUnlisted :: pending[id]
  }

  /** The flush takes the counter away. */
  predicate Taken(id: RuleId, f: Faults) { !f.flushUnlisted && id !in f.unreadable }

  /** The probe puts it back. */
  predicate Returned(id: RuleId, f: Faults) {
    !f.snapshotUnlisted && id !in f.unsnapped && id !in f.unrestored
  }

  /** The counters a probe leaves: of the others those not taken or put back, at
      their old values; and its own if it was neither taken nor deleted. */
  ghost function AfterProbe(pending: Counters, probe: RuleId, f: Faults): Counters {
    map id | id in Hit(pending, probe, f) && (!Taken(id, f) || (id != probe && Returned(id, f))) && (id == probe ==> f.undeleted)
      :: Hit(pending, probe, f)[id]
  }

  /**
   * When a probe is harmless. With none of its own calls failing it leaves every
   * counter as it was, whatever the flush cannot read or write; in general it
   * does so exactly when every counter the flush took was put back and its own is
   * gone. The counters it does not restore are lost whole, and none is invented.
   */
  lemma ProbeIsHarmlessIff(pending: Counters, probe: RuleId, f: Faults)
    requires probe !in pending
    ensures AfterProbe(pending, probe, f) == pending
            <==> && (forall id :: id in pending && Taken(id, f) ==> Returned(id, f))
                 && (f.unrecorded || Taken(probe, f) || !f.undeleted)
    ensures !f.snapshotUnlisted && f.unsnapped == {} && f.unrestored == {} && !f.undeleted ==> AfterProbe(pending, probe, f) == pending
    ensures forall id :: id in AfterProbe(pending, probe, f) && id != probe ==> id in pending && AfterProbe(pending, probe, f)[id] == pending[id]
  {
    var after := AfterProbe(pending, probe, f);
    if forall id :: id in pending && Taken(id, f) ==> Returned(id, f) {
      forall id | id in pending ensures id in after && after[id] == pending[id] {
      }
    } else {
      var id :| id in pending && Taken(id, f) && !Returned(id, f);
      assert id !in after;
    }
    assert probe in after <==> !f.unrecorded && !Taken(probe, f) && f.undeleted;
  }

  /** What the probe finds on its own row. */
  lemma DeltaIs(rows: Counters, hit: Counters, f: Faults, probe: RuleId)
    requires probe in rows && rows[probe] == 0 && (probe in hit ==> hit[probe] == 1)
    requires !WriteFails(hit, f.unreadable, f.unwritable, hit.Keys)
    ensures var after := FlushedRows(rows, hit, f.unreadable, f.unwritable, hit.Keys);
            probe in after && after[probe] == if probe in hit && probe !in f.unreadable then 1 else 0
    ensures probe in FlushedPending(hit, f.unreadable, hit.Keys) <==> probe in hit && probe in f.unreadable
  {
  }

  /** The counters after the flush, the deletion and the putting back. */
  lemma ProbeRestores(pending: Counters, probe: RuleId, f: Faults)
    requires probe !in pending && forall id :: id in pending ==> pending[id] > 0
    ensures var hit := Hit(pending, probe, f);
            var flushed := if f.flushUnlisted then hit else FlushedPending(hit, f.unreadable, hit.Keys);
            var cleaned := if f.undeleted then flushed else flushed - {probe};
            var snapshot := Snapshotted(pending, probe, f);
            PutBack(cleaned, snapshot, snapshot.Keys - f.unrestored) == AfterProbe(pending, probe, f)
  {
    var hit := Hit(pending, probe, f);
    var flushed := if f.flushUnlisted then hit else FlushedPending(hit, f.unreadable, hit.Keys);
    var cleaned := if f.undeleted then flushed else flushed - {probe};
    var snapshot := Snapshotted(pending, probe, f);
    var result, after := PutBack(cleaned, snapshot, snapshot.Keys - f.unrestored), AfterProbe(pending, probe, f);
    forall id ensures id in result <==> id in after {
      assert id in cleaned <==> id in hit && !Taken(id, f) && (id == probe ==> f.undeleted);
    }
    forall id | id in result ensures result[id] == after[id] {
    }
  }

  /** What the flush loop has done when no transaction is broken. */
  ghost predicate Progress(rows: Counters, pending: Counters, unreadable: set<RuleId>, unwritable: set<RuleId>, done: set<RuleId>,
                           hitCount: Counters, errors: nat, flushed: nat) {
    && hitCount == FlushedRows(rows, pending, unreadable, unwritable, done)
    && errors == |Turns(pending, rows, unreadable, unwritable, done, Failed)|
    && flushed == |Turns(pending, rows, unreadable, unwritable, done, Moved)|
  }

  lemma OneMoreFlushed(rows: Counters, pending: Counters, unreadable: set<RuleId>, unwritable: set<RuleId>, done: set<RuleId>,
                       hitCount: Counters, errors: nat, flushed: nat, id: RuleId)
    requires id in pending && id !in done
    requires Progress(rows, pending, unreadable, unwritable, done, hitCount, errors, flushed)
    ensures var turn := TurnOf(FlushedPending(pending, unreadable, done), hitCount, unreadable, if id in unwritable then {id} else {}, id);
            && (turn.Moved? ==> id in hitCount)
            && Progress(rows, pending, unreadable, unwritable, done + {id},
                        if turn.Moved? then hitCount[id := hitCount[id] + pending[id]] else hitCount,
                        errors + (if turn.Failed? then 1 else 0), flushed + (if turn.Moved? then 1 else 0))
  {
    OneMoreRow(rows, pending, unreadable, unwritable, done, id);
    OneMoreKey(pending, unreadable, done, id);
    OneMoreTurn(rows, pending, unreadable, unwritable, done, id, Moved);
    OneMoreTurn(rows, pending, unreadable, unwritable, done, id, Failed);
  }

  lemma OneMoreWrite(pending: Counters, unreadable: set<RuleId>, unwritable: set<RuleId>, done: set<RuleId>, id: RuleId)
    requires id in pending && id !in done
    ensures WriteFails(pending, unreadable, unwritable, done + {id})
            <==> WriteFails(pending, unreadable, unwritable, done) || (Moves(pending, unreadable, id) && id in unwritable)
  {
  }

  /** What a flush moves is neither lost nor counted twice: for a live rule, row
      and counter add up to the same before and after, unless the write of that
      rule failed, and then exactly its counter is lost. */
  lemma FlushConserves(rows: Counters, pending: Counters, unreadable: set<RuleId>, unwritable: set<RuleId>, id: RuleId)
    requires id in rows
    ensures var rows' := FlushedRows(rows, pending, unreadable, unwritable, pending.Keys);
            var pending' := FlushedPending(pending, unreadable, pending.Keys);
            id in rows' && rows'[id] + Count(pending', id) ==
              rows[id] + Count(pending, id) - if Moves(pending, unreadable, id) && id in unwritable then pending[id] else 0
  {
  }
}
