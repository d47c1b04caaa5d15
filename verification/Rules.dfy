/**
 * The columns of the two rule tables, BlockRule and AllowRule
 * (src/django_waf/models.py). Columns both tables have are fields of Rule; the
 * columns only one of them has are in its kind.
 *
 * Date-times are whole microseconds since an epoch, the resolution the
 * columns store.
 */
module Rules {
  import opened Wrappers

  /** A UUID, as text. */
  type RuleId = string
  type Time = int

  const MICROS_PER_DAY: int := 86_400_000_000

  datatype Action = Block | Challenge | Throttle | LogOnly
  datatype RuleType = Ua | Ip | Cidr | Composite
  datatype MatchType = Exact | Regex | Contains | CidrMatch
  datatype Source = Admin | Auto | Feed
  datatype Review = NotApplicable | Pending | Confirmed | Rejected | ExpiredUnreviewed

  datatype Kind =
    | BlockKind(action: Action, review: Review, detectors: string)
    | AllowKind(verifyRdns: bool, rdnsPattern: string)

  /** `order` is the column the table is read in order of: `priority` for a
      block rule, the collation rank of `name` for an allow rule. */
  datatype Rule = Rule(
    id: RuleId,
    ruleType: RuleType,
    matchType: MatchType,
    pattern: string,
    order: int,
    isActive: bool,
    source: Source,
    expiresAt: Option<Time>,
    confidence: real,
    reporters: nat,
    kind: Kind)

  /** `expires_at IS NULL OR expires_at > now`. */
  predicate Unexpired(expiresAt: Option<Time>, now: Time) {
    expiresAt.None? || expiresAt.value > now
  }

  /** The filter of `BlockRuleManager.active` and `AllowRuleManager.active`. */
  predicate IsLive(r: Rule, now: Time) {
    r.isActive && Unexpired(r.expiresAt, now)
  }

  /** The filter of the two managers' `expired`. */
  predicate IsExpired(r: Rule, now: Time) {
    r.isActive && !Unexpired(r.expiresAt, now)
  }

  /** The filter of `BlockRuleManager.stale`. */
  predicate IsStale(r: Rule, now: Time, days: nat) {
    && r.source == Auto
    && !r.isActive
    && r.expiresAt.Some?
    && r.expiresAt.value < now - days * MICROS_PER_DAY
    && r.kind.BlockKind?
    && r.kind.review in {NotApplicable, ExpiredUnreviewed}
  }

  /** The first update of `expire_rules`: an expired row is deactivated. */
  function Deactivated(r: Rule, now: Time): Rule {
    if IsExpired(r, now) then r.(isActive := false) else r
  }

  /** Its last update: an auto row still pending review past its expiry is marked
      as never reviewed, whether or not it was active. */
  function MarkedUnreviewed(r: Rule, now: Time): Rule {
    if && r.kind.BlockKind? && r.source == Auto && r.kind.review == Pending
       && !Unexpired(r.expiresAt, now)
    then r.(kind := r.kind.(review := ExpiredUnreviewed))
    else r
  }

  /** What one run of `expire_rules` at `now` leaves of a row. */
  function Swept(r: Rule, now: Time): Rule {
    MarkedUnreviewed(Deactivated(r, now), now)
  }
}
