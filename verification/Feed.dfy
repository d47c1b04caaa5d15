/**
 * Reconciliation of the two rule tables with a fetched threat feed: the body of
 * `sync_feed` after the fetch.
 *
 * The code walks the feed once, writing to both tables as it goes. The
 * specification never interleaves the two: each table is a function of its own
 * old rows, and each row of what the feed says about that row's key.
 */
module Feed {
  import opened Wrappers
  import opened Rules

  const MAX_PATTERN_LENGTH: nat := 512
  const DEFAULT_PRIORITY: int := 100

  datatype Table = Blocks | Allows

  /** One feed entry. A dimension outside its known set, a confidence that is no
      number and an expiry that is no date are None. */
  datatype Entry = Entry(
    confidence: Option<real>,
    ruleType: Option<RuleType>,
    pattern: string,
    isAllow: bool,
    matchType: Option<MatchType>,
    action: Option<Action>,
    expires: Option<Time>,
    reporters: Option<nat>,
    verifyRdns: bool,
    rdnsPattern: string)

  /** The settings, the regex validator and what the database supplies for a new
      row: the id of the nth row of a table and the rank of an allow rule's name. */
  datatype Config = Config(
    threshold: real,
    quarantine: bool,
    safeRegex: string -> bool,
    newId: nat -> RuleId,
    nameRank: (RuleType, string) -> int)

  datatype Key = Key(ruleType: RuleType, pattern: string)

  function KeyOf(r: Rule): Key { Key(r.ruleType, r.pattern) }

  predicate IsFeed(r: Rule, k: Key) { r.source == Source.Feed && KeyOf(r) == k }

  /** `_validate_pattern`. */
  predicate PatternIsSafe(pattern: string, matchType: MatchType, c: Config) {
    0 < |pattern| <= MAX_PATTERN_LENGTH && (matchType == Regex ==> c.safeRegex(pattern))
  }

  /** Whether the entry is imported into the table. */
  predicate Accepted(e: Entry, table: Table, c: Config) {
    && e.confidence.Some? && c.threshold <= e.confidence.value <= 1.0
    && e.ruleType.Some? && e.matchType.Some?
    && PatternIsSafe(e.pattern, e.matchType.value, c)
    && match table
       case Blocks => !e.isAllow && e.action.Some?
       case Allows => e.isAllow && e.verifyRdns && e.rdnsPattern != ""
  }

  function EntryKey(e: Entry): Key
    requires e.ruleType.Some?
  {
    Key(e.ruleType.value, e.pattern)
  }

  predicate Speaks(e: Entry, k: Key, table: Table, c: Config) {
    Accepted(e, table, c) && EntryKey(e) == k
  }

  /***** What one entry writes *****/

  function ExpiryOf(e: Entry, now: Time): Option<Time> {
    if e.expires.Some? then e.expires else Some(now + 30 * MICROS_PER_DAY)
  }

  function KindAfter(was: Kind, e: Entry, table: Table, c: Config): Kind
    requires Accepted(e, table, c)
  {
    if table == Allows then AllowKind(true, e.rdnsPattern)
    else if was.BlockKind? then was.(action := e.action.value)
    else BlockKind(e.action.value, NotApplicable, "")
  }

  /** The assignments to an existing row. */
  function Updated(r: Rule, e: Entry, table: Table, c: Config, now: Time): Rule
    requires Accepted(e, table, c)
  {
    r.(matchType := e.matchType.value,
       expiresAt := ExpiryOf(e, now),
       confidence := e.confidence.value,
       reporters := if e.reporters.Some? then e.reporters.value else r.reporters,
       isActive := r.isActive || table == Blocks || !c.quarantine,
       kind := KindAfter(r.kind, e, table, c))
  }

  /** The row `objects.create` inserts as the nth of its table. */
  function Created(e: Entry, table: Table, c: Config, now: Time, n: nat): Rule
    requires Accepted(e, table, c)
  {
    Rule(c.newId(n), e.ruleType.value, e.matchType.value, e.pattern,
         if table == Blocks then DEFAULT_PRIORITY else c.nameRank(e.ruleType.value, e.pattern),
         table == Blocks || !c.quarantine,
         Source.Feed,
         ExpiryOf(e, now),
         e.confidence.value,
         if e.reporters.Some? then e.reporters.value else 0,
         if table == Blocks then BlockKind(e.action.value, NotApplicable, "") else AllowKind(true, e.rdnsPattern))
  }

  /** `filter(source=FEED, rule_type=…, pattern=…).first()`: its position, or the
      end of the table. */
  function Find(rows: seq<Rule>, k: Key): (i: nat)
    ensures i <= |rows|
    ensures i < |rows| ==> IsFeed(rows[i], k)
    ensures forall j :: 0 <= j < i ==> !IsFeed(rows[j], k)
  {
    if rows == [] || IsFeed(rows[0], k) then 0 else 1 + Find(rows[1..], k)
  }

  function Upsert(rows: seq<Rule>, e: Entry, table: Table, c: Config, now: Time): seq<Rule> {
    if !Accepted(e, table, c) then rows
    else
      var i := Find(rows, EntryKey(e));
      if i < |rows| then rows[i := Updated(rows[i], e, table, c, now)]
      else rows + [Created(e, table, c, now, |rows|)]
  }

  function UpsertAll(rows: seq<Rule>, es: seq<Entry>, table: Table, c: Config, now: Time): seq<Rule> {
    if es == [] then rows
    else Upsert(UpsertAll(rows, es[..|es| - 1], table, c, now), es[|es| - 1], table, c, now)
  }

  predicate Seen(k: Key, es: seq<Entry>, table: Table, c: Config) {
    exists e | e in es :: Speaks(e, k, table, c)
  }

  /** A row an expiry pass turns off. */
  predicate Drops(r: Rule, es: seq<Entry>, table: Table, c: Config) {
    r.source == Source.Feed && r.isActive && !Seen(KeyOf(r), es, table, c)
  }

  function Kept(r: Rule, es: seq<Entry>, table: Table, c: Config): Rule {
    if Drops(r, es, table, c) then r.(isActive := false) else r
  }

  function KeptAll(rows: seq<Rule>, es: seq<Entry>, table: Table, c: Config): seq<Rule> {
    seq(|rows|, i requires 0 <= i < |rows| => Kept(rows[i], es, table, c))
  }

  function DropCount(rows: seq<Rule>, es: seq<Entry>, table: Table, c: Config): nat {
    if rows == [] then 0
    else
      DropCount(rows[..|rows| - 1], es, table, c)
      + if Drops(rows[|rows| - 1], es, table, c) then 1 else 0
  }

  /** A table after one sync, as a function of that table alone. */
  function Synced(rows: seq<Rule>, es: seq<Entry>, table: Table, c: Config, now: Time): seq<Rule> {
    KeptAll(UpsertAll(rows, es, table, c, now), es, table, c)
  }

  /***** The code *****/

  class FeedStore {
    var blocks: seq<Rule>
    var allows: seq<Rule>

    constructor (blocks: seq<Rule>, allows: seq<Rule>)
      ensures this.blocks == blocks && this.allows == allows
    {
      this.blocks, this.allows := blocks, allows;
    }

    /** `sync_feed` from the first entry on. */
    method Sync(es: seq<Entry>, c: Config, now: Time)
      returns (created: nat, updated: nat, expired: nat, skipped: nat)
      modifies this
      ensures blocks == Synced(old(blocks), es, Blocks, c, now)
      ensures allows == Synced(old(allows), es, Allows, c, now)
      ensures created + updated + skipped == |es|
      ensures created == |blocks| - |old(blocks)| + |allows| - |old(allows)|
      ensures expired == DropCount(UpsertAll(old(blocks), es, Blocks, c, now), es, Blocks, c)
                       + DropCount(UpsertAll(old(allows), es, Allows, c, now), es, Allows, c)
    {
      created, updated, skipped := 0, 0, 0;
      var seenBlocks: set<Key>, seenAllows: set<Key> := {}, {};
      var n := 0;
      while n < |es|
        invariant n <= |es|
        invariant blocks == UpsertAll(old(blocks), es[..n], Blocks, c, now)
        invariant allows == UpsertAll(old(allows), es[..n], Allows, c, now)
        invariant forall k :: k in seenBlocks <==> Seen(k, es[..n], Blocks, c)
        invariant forall k :: k in seenAllows <==> Seen(k, es[..n], Allows, c)
        invariant created + updated + skipped == n
        invariant created == |blocks| - |old(blocks)| + |allows| - |old(allows)|
      {
        var e := es[n];
        ghost var later := es[..n + 1];
        assert later[..n] == es[..n] && later[n] == e;
        SeenGrows(es[..n], e, Blocks, c);
        SeenGrows(es[..n], e, Allows, c);
        assert later == es[..n] + [e];
        n := n + 1;
        if e.confidence.None? || e.confidence.value < c.threshold || e.confidence.value > 1.0 {
          skipped := skipped + 1;
          continue;
        }
        if e.ruleType.None? || e.pattern == "" || e.matchType.None?
           || !PatternIsSafe(e.pattern, e.matchType.value, c) {
          skipped := skipped + 1;
          continue;
        }
        var key := EntryKey(e);
        if e.isAllow {
          if !e.verifyRdns || e.rdnsPattern == "" {
            skipped := skipped + 1;
            continue;
          }
          seenAllows := seenAllows + {key};
          var i := Find(allows, key);
          if i < |allows| {
            allows := allows[i := Updated(allows[i], e, Allows, c, now)];
            updated := updated + 1;
          } else {
            allows := allows + [Created(e, Allows, c, now, |allows|)];
            created := created + 1;
          }
          continue;
        }
        if e.action.None? {
          skipped := skipped + 1;
          continue;
        }
        seenBlocks := seenBlocks + {key};
        var i := Find(blocks, key);
        if i < |blocks| {
          blocks := blocks[i := Updated(blocks[i], e, Blocks, c, now)];
          updated := updated + 1;
        } else {
          blocks := blocks + [Created(e, Blocks, c, now, |blocks|)];
          created := created + 1;
        }
      }
      assert es[..n] == es;
      var dropped, gone := Deactivate(blocks, seenBlocks, es, Blocks, c);
      blocks, expired := dropped, gone;
      dropped, gone := Deactivate(allows, seenAllows, es, Allows, c);
      allows, expired := dropped, expired + gone;
    }
  }

  /** One of the two deactivation loops. */
  method Deactivate(rows: seq<Rule>, seen: set<Key>, ghost es: seq<Entry>, ghost table: Table, ghost c: Config)
    returns (after: seq<Rule>, expired: nat)
    requires forall k :: k in seen <==> Seen(k, es, table, c)
    ensures after == KeptAll(rows, es, table, c)
    ensures expired == DropCount(rows, es, table, c)
  {
    after, expired := rows, 0;
    for i := 0 to |rows|
      invariant |after| == |rows|
      invariant forall j :: 0 <= j < i ==> after[j] == Kept(rows[j], es, table, c)
      invariant forall j :: i <= j < |rows| ==> after[j] == rows[j]
      invariant expired == DropCount(rows[..i], es, table, c)
    {
      assert rows[..i + 1][..i] == rows[..i];
      if after[i].source == Source.Feed && after[i].isActive && KeyOf(after[i]) !in seen {
        after := after[i := after[i].(isActive := false)];
        expired := expired + 1;
      }
    }
    assert rows[..|rows|] == rows;
  }

  lemma SeenGrows(es: seq<Entry>, e: Entry, table: Table, c: Config)
    ensures forall k ::
              Seen(k, es + [e], table, c) <==> (Seen(k, es, table, c) || Speaks(e, k, table, c))
  {
    assert forall x :: x in es + [e] <==> (x in es || x == e);
  }

  /***** What a sync means, row by row *****/

  /** The tables the code can meet: at most one feed row per key. */
  predicate UniqueFeedKeys(rows: seq<Rule>) {
    forall i, j :: 0 <= i < j < |rows| && rows[i].source == Source.Feed && rows[j].source == Source.Feed ==>
      KeyOf(rows[i]) != KeyOf(rows[j])
  }

  /** Every row of a table is of the table's own kind. */
  predicate OfTable(r: Rule, table: Table) {
    (table == Blocks) == r.kind.BlockKind?
  }

  predicate AllOf(rows: seq<Rule>, table: Table) {
    forall i :: 0 <= i < |rows| ==> OfTable(rows[i], table)
  }

  /** The last entry accepted for the key. */
  function LastWord(es: seq<Entry>, k: Key, table: Table, c: Config): (w: Option<Entry>)
    ensures w.Some? <==> Seen(k, es, table, c)
    ensures w.Some? ==> Speaks(w.value, k, table, c) && w.value in es
  {
    if es == [] then None
    else
      var e := es[|es| - 1];
      SeenGrows(es[..|es| - 1], e, table, c);
      assert es == es[..|es| - 1] + [e];
      if Speaks(e, k, table, c) then Some(e) else LastWord(es[..|es| - 1], k, table, c)
  }

  /** The last reporter count an accepted entry for the key gave. */
  function LastReporters(es: seq<Entry>, k: Key, table: Table, c: Config): Option<nat> {
    if es == [] then None
    else
      var e := es[|es| - 1];
      if Speaks(e, k, table, c) && e.reporters.Some? then e.reporters
      else LastReporters(es[..|es| - 1], k, table, c)
  }

  /**
   * What a feed makes of one row: the last accepted entry for its key decides
   * every column but two. Reporters come from the last accepted entry that
   * counts them, and a quarantined allow row stays as active as it was.
   */
  function Heard(r: Rule, es: seq<Entry>, table: Table, c: Config, now: Time): Rule {
    var k := KeyOf(r);
    var word := LastWord(es, k, table, c);
    var reporters := LastReporters(es, k, table, c);
    if r.source != Source.Feed || word.None? then r
    else
      r.(matchType := word.value.matchType.value,
         expiresAt := ExpiryOf(word.value, now),
         confidence := word.value.confidence.value,
         reporters := if reporters.Some? then reporters.value else r.reporters,
         isActive := r.isActive || table == Blocks || !c.quarantine,
         kind := if table == Allows then AllowKind(true, word.value.rdnsPattern)
                 else if r.kind.BlockKind? then r.kind.(action := word.value.action.value)
                 else BlockKind(word.value.action.value, NotApplicable, ""))
  }

  /** Hearing one more entry is hearing the rest, then applying that entry. */
  lemma HeardStep(r: Rule, es: seq<Entry>, e: Entry, table: Table, c: Config, now: Time)
    requires OfTable(r, table)
    ensures var h := Heard(r, es, table, c, now);
            Heard(r, es + [e], table, c, now)
            == if r.source == Source.Feed && Speaks(e, KeyOf(r), table, c) then Updated(h, e, table, c, now) else h
  {
    var more := es + [e];
    assert more[..|more| - 1] == es && more[|more| - 1] == e;
    var k := KeyOf(r);
    if r.source == Source.Feed && !Speaks(e, k, table, c) {
      assert LastWord(more, k, table, c) == LastWord(es, k, table, c);
      assert LastReporters(more, k, table, c) == LastReporters(es, k, table, c);
    }
    if LastReporters(es, k, table, c).Some? {
      ReportersAreSeen(es, k, table, c);
    }
  }

  lemma {:induction false} ReportersAreSeen(es: seq<Entry>, k: Key, table: Table, c: Config)
    requires LastReporters(es, k, table, c).Some?
    ensures Seen(k, es, table, c)
  {
    var e := es[|es| - 1];
    assert e in es;
    if !(Speaks(e, k, table, c) && e.reporters.Some?) {
      ReportersAreSeen(es[..|es| - 1], k, table, c);
    }
  }

  lemma HeardTwice(r: Rule, es: seq<Entry>, table: Table, c: Config, now: Time)
    ensures Heard(Heard(r, es, table, c, now), es, table, c, now) == Heard(r, es, table, c, now)
  {
  }

  /** A row before the sync, or the one the first entry for its key creates. */
  ghost predicate Grew(rows: seq<Rule>, after: seq<Rule>, es: seq<Entry>, table: Table, c: Config, now: Time) {
    && |rows| <= |after|
    && (forall i :: 0 <= i < |rows| ==> after[i] == Heard(rows[i], es, table, c, now))
    && (forall i :: |rows| <= i < |after| ==> Newborn(after[i], es, table, c, now))
  }

  /** A created row: a feed row of a key the feed names, settled under the feed,
      and active exactly when its table activates on create. */
  ghost predicate Newborn(r: Rule, es: seq<Entry>, table: Table, c: Config, now: Time) {
    && r.source == Source.Feed
    && OfTable(r, table)
    && Seen(KeyOf(r), es, table, c)
    && r.isActive == (table == Blocks || !c.quarantine)
    && exists born: Rule ::
         && OfTable(born, table) && KeyOf(born) == KeyOf(r) && born.source == Source.Feed
         && born.isActive == r.isActive
         && r == Heard(born, es, table, c, now)
  }

  ghost predicate Covers(rows: seq<Rule>, es: seq<Entry>, table: Table, c: Config) {
    forall k :: Seen(k, es, table, c) ==> Find(rows, k) < |rows|
  }

  lemma NewbornLater(r: Rule, es: seq<Entry>, e: Entry, table: Table, c: Config, now: Time)
    requires Newborn(r, es, table, c, now)
    ensures Newborn(if Speaks(e, KeyOf(r), table, c) then Updated(r, e, table, c, now) else r,
                    es + [e], table, c, now)
  {
    var born: Rule :|
      && OfTable(born, table) && KeyOf(born) == KeyOf(r) && born.source == Source.Feed
      && born.isActive == r.isActive
      && r == Heard(born, es, table, c, now);
    HeardStep(born, es, e, table, c, now);
    SeenGrows(es, e, table, c);
  }

  lemma NewbornNow(es: seq<Entry>, e: Entry, table: Table, c: Config, now: Time, n: nat)
    requires Accepted(e, table, c) && !Seen(EntryKey(e), es, table, c)
    ensures Newborn(Created(e, table, c, now, n), es + [e], table, c, now)
  {
    var born := Created(e, table, c, now, n);
    HeardStep(born, es, e, table, c, now);
    SeenGrows(es, e, table, c);
    assert Heard(born, es, table, c, now) == born;
    assert Updated(born, e, table, c, now) == born;
  }

  lemma FindIs(rows: seq<Rule>, i: nat, k: Key)
    requires UniqueFeedKeys(rows) && i < |rows| && IsFeed(rows[i], k)
    ensures Find(rows, k) == i
  {
  }

  /** One entry rewrites the rows of its key in place and at most appends one. */
  lemma UpsertAt(mid: seq<Rule>, e: Entry, table: Table, c: Config, now: Time)
    requires UniqueFeedKeys(mid)
    ensures var after := Upsert(mid, e, table, c, now);
            && |mid| <= |after|
            && (forall i :: 0 <= i < |mid| ==>
                  after[i] == if mid[i].source == Source.Feed && Speaks(e, KeyOf(mid[i]), table, c)
                              then Updated(mid[i], e, table, c, now) else mid[i])
            && (|mid| < |after| ==>
                  && Accepted(e, table, c)
                  && after == mid + [Created(e, table, c, now, |mid|)]
                  && forall i :: 0 <= i < |mid| ==> !IsFeed(mid[i], EntryKey(e)))
  {
    forall i | 0 <= i < |mid| && mid[i].source == Source.Feed && Speaks(e, KeyOf(mid[i]), table, c)
      ensures Find(mid, EntryKey(e)) == i
    {
      FindIs(mid, i, KeyOf(mid[i]));
    }
  }

  lemma UpsertKeepsUnique(mid: seq<Rule>, e: Entry, table: Table, c: Config, now: Time)
    requires UniqueFeedKeys(mid)
    ensures UniqueFeedKeys(Upsert(mid, e, table, c, now))
  {
    var after := Upsert(mid, e, table, c, now);
    UpsertAt(mid, e, table, c, now);
    forall i | 0 <= i < |mid| ensures KeyOf(after[i]) == KeyOf(mid[i]) && after[i].source == mid[i].source {
    }
  }

  lemma UpsertCovers(mid: seq<Rule>, es: seq<Entry>, e: Entry, table: Table, c: Config, now: Time)
    requires UniqueFeedKeys(mid) && Covers(mid, es, table, c)
    ensures Covers(Upsert(mid, e, table, c, now), es + [e], table, c)
  {
    var after := Upsert(mid, e, table, c, now);
    UpsertAt(mid, e, table, c, now);
    SeenGrows(es, e, table, c);
    forall k | Seen(k, es + [e], table, c) ensures Find(after, k) < |after| {
      var at := Find(mid, k);
      if at < |mid| {
        assert IsFeed(after[at], k);
      } else {
        assert IsFeed(after[|mid|], k);
      }
    }
  }

  lemma UpsertGrows(rows: seq<Rule>, mid: seq<Rule>, es: seq<Entry>, e: Entry, table: Table, c: Config, now: Time)
    requires AllOf(rows, table) && UniqueFeedKeys(mid)
    requires Grew(rows, mid, es, table, c, now) && Covers(mid, es, table, c)
    ensures Grew(rows, Upsert(mid, e, table, c, now), es + [e], table, c, now)
  {
    var after := Upsert(mid, e, table, c, now);
    UpsertAt(mid, e, table, c, now);
    forall i | 0 <= i < |rows| ensures after[i] == Heard(rows[i], es + [e], table, c, now) {
      HeardStep(rows[i], es, e, table, c, now);
    }
    forall i | |rows| <= i < |after| ensures Newborn(after[i], es + [e], table, c, now) {
      if i < |mid| {
        NewbornLater(mid[i], es, e, table, c, now);
      } else {
        assert Find(mid, EntryKey(e)) == |mid|;
        NewbornNow(es, e, table, c, now, |mid|);
      }
    }
  }

  lemma {:induction false} UpsertAllMeans(rows: seq<Rule>, es: seq<Entry>, table: Table, c: Config, now: Time)
    requires AllOf(rows, table) && UniqueFeedKeys(rows)
    ensures var after := UpsertAll(rows, es, table, c, now);
            && UniqueFeedKeys(after)
            && Grew(rows, after, es, table, c, now)
            && Covers(after, es, table, c)
  {
    if es != [] {
      var before, e := es[..|es| - 1], es[|es| - 1];
      UpsertAllMeans(rows, before, table, c, now);
      var mid := UpsertAll(rows, before, table, c, now);
      UpsertKeepsUnique(mid, e, table, c, now);
      UpsertGrows(rows, mid, before, e, table, c, now);
      UpsertCovers(mid, before, e, table, c, now);
      assert es == before + [e];
    }
  }

  /** What can be said of a created row afterwards: it is the feed's, says what the
      feed's last word on its key says, and is active unless quarantined. */
  ghost predicate IsNew(r: Rule, es: seq<Entry>, table: Table, c: Config, now: Time) {
    && r.source == Source.Feed
    && Seen(KeyOf(r), es, table, c)
    && Heard(r, es, table, c, now) == r
    && r.isActive == (table == Blocks || !c.quarantine)
  }

  lemma NewbornIsNew(r: Rule, es: seq<Entry>, table: Table, c: Config, now: Time)
    requires Newborn(r, es, table, c, now)
    ensures IsNew(r, es, table, c, now) && Kept(r, es, table, c) == r
  {
    var born: Rule :|
      && OfTable(born, table) && KeyOf(born) == KeyOf(r) && born.source == Source.Feed
      && born.isActive == r.isActive
      && r == Heard(born, es, table, c, now);
    HeardTwice(born, es, table, c, now);
  }

  /***** Main results *****/

  /**
   * Reconciliation. Old rows keep their place, and each is decided by the feed's
   * last word on its key; rows that are not the feed's are untouched; a feed row
   * whose key the feed no longer names is inactive; every key it names has one
   * row, created from the feed where there was none.
   */
  lemma SyncReconciles(rows: seq<Rule>, es: seq<Entry>, table: Table, c: Config, now: Time)
    requires AllOf(rows, table) && UniqueFeedKeys(rows)
    ensures var after := Synced(rows, es, table, c, now);
            && AllOf(after, table) && UniqueFeedKeys(after)
            && |rows| <= |after|
            && (forall i :: 0 <= i < |rows| && rows[i].source != Source.Feed ==> after[i] == rows[i])
            && (forall i :: 0 <= i < |rows| && Seen(KeyOf(rows[i]), es, table, c) ==>
                  after[i] == Heard(rows[i], es, table, c, now))
            && (forall i :: 0 <= i < |rows| && rows[i].source == Source.Feed && !Seen(KeyOf(rows[i]), es, table, c) ==>
                  after[i] == rows[i].(isActive := false))
            && (forall i :: |rows| <= i < |after| ==> IsNew(after[i], es, table, c, now))
            && (forall k :: Seen(k, es, table, c) ==> exists r | r in after :: IsFeed(r, k))
  {
    UpsertAllMeans(rows, es, table, c, now);
    var mid := UpsertAll(rows, es, table, c, now);
    var after := Synced(rows, es, table, c, now);
    KeptKeepsUnique(mid, es, table, c);
    forall i | |rows| <= i < |after| ensures IsNew(after[i], es, table, c, now) {
      NewbornIsNew(mid[i], es, table, c, now);
    }
    forall k | Seen(k, es, table, c) ensures exists r | r in after :: IsFeed(r, k) {
      StillCovered(mid, es, table, c, k);
    }
  }

  lemma StillCovered(mid: seq<Rule>, es: seq<Entry>, table: Table, c: Config, k: Key)
    requires Covers(mid, es, table, c) && Seen(k, es, table, c)
    ensures exists r | r in KeptAll(mid, es, table, c) :: IsFeed(r, k)
  {
    var at, after := Find(mid, k), KeptAll(mid, es, table, c);
    assert after[at] in after && IsFeed(after[at], k);
  }

  lemma KeptKeepsUnique(rows: seq<Rule>, es: seq<Entry>, table: Table, c: Config)
    requires UniqueFeedKeys(rows)
    ensures UniqueFeedKeys(KeptAll(rows, es, table, c))
  {
    var after := KeptAll(rows, es, table, c);
    forall i | 0 <= i < |rows| ensures KeyOf(after[i]) == KeyOf(rows[i]) && after[i].source == rows[i].source {
    }
  }

  /** After a sync a feed block rule is active iff the feed names its key. */
  lemma BlocksActiveIffNamed(rows: seq<Rule>, es: seq<Entry>, c: Config, now: Time)
    requires AllOf(rows, Blocks) && UniqueFeedKeys(rows)
    ensures forall r :: r in Synced(rows, es, Blocks, c, now) && r.source == Source.Feed ==>
              (r.isActive <==> Seen(KeyOf(r), es, Blocks, c))
  {
    UpsertAllMeans(rows, es, Blocks, c, now);
  }

  /** Under quarantine a sync activates no allow rule: an active one was an active
      row before. Without it, allow rules follow the feed as block rules do. */
  lemma AllowsStayQuarantined(rows: seq<Rule>, es: seq<Entry>, c: Config, now: Time)
    requires AllOf(rows, Allows) && UniqueFeedKeys(rows)
    ensures var after := Synced(rows, es, Allows, c, now);
            if c.quarantine then
              forall i :: 0 <= i < |after| ==>
                (after[i].isActive <==>
                  (i < |rows| && rows[i].isActive
                   && (rows[i].source == Source.Feed ==> Seen(KeyOf(rows[i]), es, Allows, c))))
            else
              forall i :: 0 <= i < |after| && after[i].source == Source.Feed ==>
                (after[i].isActive <==> Seen(KeyOf(after[i]), es, Allows, c))
  {
    UpsertAllMeans(rows, es, Allows, c, now);
  }

  /** A second sync of the same feed at the same time changes no row, creates none
      and expires none. */
  lemma SyncIsIdempotent(rows: seq<Rule>, es: seq<Entry>, table: Table, c: Config, now: Time)
    requires AllOf(rows, table) && UniqueFeedKeys(rows)
    ensures var once := Synced(rows, es, table, c, now);
            && UpsertAll(once, es, table, c, now) == once
            && Synced(once, es, table, c, now) == once
            && DropCount(once, es, table, c) == 0
  {
    var once := Synced(rows, es, table, c, now);
    SyncReconciles(rows, es, table, c, now);
    forall i | 0 <= i < |once|
      ensures Heard(once[i], es, table, c, now) == once[i] && !Drops(once[i], es, table, c)
    {
      if i < |rows| {
        HeardTwice(rows[i], es, table, c, now);
      } else {
        assert IsNew(once[i], es, table, c, now);
      }
    }
    forall k | Seen(k, es, table, c) ensures Find(once, k) < |once| {
      var r :| r in once && IsFeed(r, k);
    }
    NothingNew(once, es, table, c, now);
    UpsertAllMeans(once, es, table, c, now);
    assert UpsertAll(once, es, table, c, now) == once;
    NothingDrops(once, es, table, c);
  }

  lemma {:induction false} NothingNew(rows: seq<Rule>, es: seq<Entry>, table: Table, c: Config, now: Time)
    requires Covers(rows, es, table, c)
    ensures |UpsertAll(rows, es, table, c, now)| == |rows|
    ensures forall i :: 0 <= i < |rows| ==>
              && KeyOf(UpsertAll(rows, es, table, c, now)[i]) == KeyOf(rows[i])
              && UpsertAll(rows, es, table, c, now)[i].source == rows[i].source
  {
    if es != [] {
      var before, e := es[..|es| - 1], es[|es| - 1];
      assert es == before + [e];
      SeenGrows(before, e, table, c);
      NothingNew(rows, before, table, c, now);
      var mid := UpsertAll(rows, before, table, c, now);
      if Accepted(e, table, c) {
        assert Seen(EntryKey(e), es, table, c);
        var at := Find(rows, EntryKey(e));
        assert IsFeed(mid[at], EntryKey(e));
      }
    }
  }

  lemma {:induction false} NothingDrops(rows: seq<Rule>, es: seq<Entry>, table: Table, c: Config)
    requires forall i :: 0 <= i < |rows| ==> !Drops(rows[i], es, table, c)
    ensures DropCount(rows, es, table, c) == 0
  {
    if rows != [] {
      NothingDrops(rows[..|rows| - 1], es, table, c);
    }
  }

  /***** What a synced row says *****/

  /** An entry the feed may put into the table under the key, on its columns. */
  ghost predicate Vetted(e: Entry, k: Key, table: Table, c: Config) {
    && e.ruleType == Some(k.ruleType) && e.pattern == k.pattern && 1 <= |e.pattern| <= 512
    && e.confidence.Some? && c.threshold <= e.confidence.value && e.confidence.value <= 1.0
    && e.matchType.Some? && (e.matchType.value == Regex ==> c.safeRegex(e.pattern))
    && (table == Blocks ==> !e.isAllow && e.action.Some?)
    && (table == Allows ==> e.isAllow && e.verifyRdns && e.rdnsPattern != "")
  }

  lemma VettedIs(k: Key, table: Table, c: Config)
    ensures forall e :: Vetted(e, k, table, c) <==> Speaks(e, k, table, c)
  {
  }

  /** Entry m is the last one vetted for the key. */
  ghost predicate IsLastWord(es: seq<Entry>, m: nat, k: Key, table: Table, c: Config) {
    m < |es| && Vetted(es[m], k, table, c) && forall j :: m < j < |es| ==> !Vetted(es[j], k, table, c)
  }

  lemma {:induction false} LastWordIs(es: seq<Entry>, k: Key, table: Table, c: Config) returns (m: nat)
    requires LastWord(es, k, table, c).Some?
    ensures IsLastWord(es, m, k, table, c) && es[m] == LastWord(es, k, table, c).value
  {
    VettedIs(k, table, c);
    var n := |es| - 1;
    if Speaks(es[n], k, table, c) {
      m := n;
    } else {
      m := LastWordIs(es[..n], k, table, c);
      forall j | m < j < |es| ensures !Vetted(es[j], k, table, c) {
        assert j < n ==> es[j] == es[..n][j];
      }
    }
  }

  /** The columns a row has from an entry: an undated one lasts thirty days, a block
      rule takes the entry's action, and an allow rule always demands reverse DNS
      with the entry's pattern. */
  ghost predicate SaysEntry(r: Rule, e: Entry, table: Table, now: Time) {
    && e.matchType == Some(r.matchType) && e.confidence == Some(r.confidence)
    && r.expiresAt == (if e.expires.Some? then e.expires else Some(now + 2_592_000_000_000))
    && (if table == Blocks then r.kind.BlockKind? && e.action == Some(r.kind.action)
        else r.kind == AllowKind(true, e.rdnsPattern) && e.rdnsPattern != "")
  }

  /**
   * Every feed row after a sync, on the columns. Either no vetted entry names its
   * key and it is inactive; or it says what the last vetted entry for its key says.
   */
  lemma SyncedRowsAreVetted(rows: seq<Rule>, es: seq<Entry>, table: Table, c: Config, now: Time, i: nat)
    requires AllOf(rows, table) && UniqueFeedKeys(rows)
    requires i < |Synced(rows, es, table, c, now)| && Synced(rows, es, table, c, now)[i].source == Source.Feed
    ensures var r := Synced(rows, es, table, c, now)[i];
            var k := Key(r.ruleType, r.pattern);
            || ((forall e :: e in es ==> !Vetted(e, k, table, c)) && !r.isActive)
            || (exists m: nat :: IsLastWord(es, m, k, table, c) && SaysEntry(r, es[m], table, now))
  {
    SyncReconciles(rows, es, table, c, now);
    var r := Synced(rows, es, table, c, now)[i];
    var k := KeyOf(r);
    VettedIs(k, table, c);
    if Seen(k, es, table, c) {
      var m := LastWordIs(es, k, table, c);
      assert i < |rows| ==> KeyOf(rows[i]) == k by {
        SyncKeepsKeys(rows, es, table, c, now);
      }
      assert SaysEntry(r, es[m], table, now);
    } else {
      assert i < |rows| by {
        assert i >= |rows| ==> IsNew(r, es, table, c, now);
      }
      SyncKeepsKeys(rows, es, table, c, now);
      assert !r.isActive;
    }
  }

  lemma SyncKeepsKeys(rows: seq<Rule>, es: seq<Entry>, table: Table, c: Config, now: Time)
    requires AllOf(rows, table) && UniqueFeedKeys(rows)
    ensures var after := Synced(rows, es, table, c, now);
            |rows| <= |after| && forall i :: 0 <= i < |rows| ==> KeyOf(after[i]) == KeyOf(rows[i]) && after[i].source == rows[i].source
  {
    UpsertAllMeans(rows, es, table, c, now);
  }

  /** What a created row has besides: the default priority and no review state if it
      blocks, no reporters if no vetted entry for its key counts any, and it is
      active exactly if it blocks or allow rules are not quarantined. */
  ghost predicate BornPlain(r: Rule, es: seq<Entry>, table: Table, c: Config) {
    && (table == Blocks ==> r.order == 100 && r.kind.BlockKind? && r.kind.review == NotApplicable && r.kind.detectors == "")
    && r.isActive == (table == Blocks || !c.quarantine)
    && r.source == Source.Feed && Seen(KeyOf(r), es, table, c)
    && ((forall e :: e in es && Vetted(e, KeyOf(r), table, c) ==> e.reporters == None) ==> r.reporters == 0)
  }

  lemma BornStays(r: Rule, es: seq<Entry>, e: Entry, table: Table, c: Config, now: Time)
    requires BornPlain(r, es, table, c)
    ensures BornPlain(if Speaks(e, KeyOf(r), table, c) then Updated(r, e, table, c, now) else r, es + [e], table, c)
  {
    VettedIs(KeyOf(r), table, c);
    SeenGrows(es, e, table, c);
    assert forall x :: x in es + [e] <==> x in es || x == e;
  }

  lemma BornNow(es: seq<Entry>, e: Entry, table: Table, c: Config, now: Time, n: nat)
    requires Accepted(e, table, c)
    ensures BornPlain(Created(e, table, c, now, n), es + [e], table, c)
  {
    VettedIs(EntryKey(e), table, c);
    SeenGrows(es, e, table, c);
    assert e in es + [e];
  }

  lemma {:induction false} UpsertsAreBorn(rows: seq<Rule>, es: seq<Entry>, table: Table, c: Config, now: Time)
    requires AllOf(rows, table) && UniqueFeedKeys(rows)
    ensures var after := UpsertAll(rows, es, table, c, now);
            |rows| <= |after| && forall i :: |rows| <= i < |after| ==> BornPlain(after[i], es, table, c)
  {
    if es != [] {
      var before, e := es[..|es| - 1], es[|es| - 1];
      assert es == before + [e];
      UpsertsAreBorn(rows, before, table, c, now);
      UpsertAllMeans(rows, before, table, c, now);
      var mid := UpsertAll(rows, before, table, c, now);
      var after := Upsert(mid, e, table, c, now);
      UpsertAt(mid, e, table, c, now);
      forall i | |rows| <= i < |after| ensures BornPlain(after[i], es, table, c) {
        if i < |mid| {
          BornStays(mid[i], before, e, table, c, now);
        } else {
          BornNow(before, e, table, c, now, |mid|);
        }
      }
    }
  }

  /** Every row a sync creates is plain in that sense. */
  lemma CreatedRowsArePlain(rows: seq<Rule>, es: seq<Entry>, table: Table, c: Config, now: Time, i: nat)
    requires AllOf(rows, table) && UniqueFeedKeys(rows) && |rows| <= i < |Synced(rows, es, table, c, now)|
    ensures BornPlain(Synced(rows, es, table, c, now)[i], es, table, c)
  {
    UpsertsAreBorn(rows, es, table, c, now);
  }
}
