/**
 * One Redis sorted set used as a sliding window
 * (src/django_waf/services/rate_limiter.py): the pipeline ZADD,
 * ZREMRANGEBYSCORE, ZCARD, ZRANGE, EXPIRE that all three limiters share.
 *
 * A time is a whole number of ticks. Between 2004 and 2038 the doubles that
 * `time.time()` returns are the multiples of 2^-22 seconds, and adding whole
 * seconds to them or subtracting them is exact, so nothing is rounded.
 */
module SlidingWindow {
  import opened Wrappers

  const TICKS: int := 4_194_304

  /** A member is `str(now)` scored by `now`, so the score determines it: two
      requests at the same time are one member. */
  datatype Member = Member(score: int)

  /** A sorted set and the time its key expires. */
  datatype ZSet = ZSet(members: set<Member>, deadline: int)

  /** The three families of keys. The source hashes a path prefix into its key;
      here the prefix itself is the key. */
  datatype Key =
    | GlobalKey(ip: string, window: nat)
    | PathKey(ip: string, prefix: string)
    | VerifyKey(ip: string)

  type ZSets = map<Key, ZSet>

  /** What a command finds under a key: nothing once the key has expired. */
  function LiveMembers(zs: ZSets, key: Key, now: int): set<Member> {
    if key in zs && now < zs[key].deadline then zs[key].members else {}
  }

  /** The key after the pipeline, for a window and a TTL in seconds.
      ZREMRANGEBYSCORE removes the scores from 0 up to and including the
      cutoff. */
  function Touched(zs: ZSets, key: Key, window: nat, ttl: nat, now: int): ZSet {
    var cutoff := now - window * TICKS;
    var kept := set m | m in LiveMembers(zs, key, now) + {Member(now)} && !(0 <= m.score <= cutoff);
    ZSet(kept, now + ttl * TICKS)
  }

  ghost predicate IsLeast(x: Member, s: set<Member>) {
    x in s && forall y :: y in s ==> x.score <= y.score
  }

  lemma {:induction false} LeastExists(s: set<Member>)
    requires s != {}
    ensures exists x :: IsLeast(x, s)
    decreases |s|
  {
    var any :| any in s;
    var rest := s - {any};
    assert forall y :: y in s ==> y == any || y in rest;
    if rest == {} {
      assert IsLeast(any, s);
    } else {
      LeastExists(rest);
      var y :| IsLeast(y, rest);
      assert IsLeast(if y.score < any.score then y else any, s);
    }
  }

  lemma {:induction false} GreatestExists(s: set<Member>) returns (x: Member)
    requires s != {}
    ensures x in s && forall y :: y in s ==> y.score <= x.score
    decreases |s|
  {
    var any :| any in s;
    var rest := s - {any};
    assert forall y :: y in s ==> y == any || y in rest;
    x := any;
    if rest != {} {
      var y := GreatestExists(rest);
      x := if any.score < y.score then y else any;
    }
  }

  /** The member ZRANGE 0 0 returns. */
  function Oldest(s: set<Member>): (first: Option<Member>)
    ensures s == {} ==> first == None
    ensures s != {} ==> first.Some? && IsLeast(first.value, s)
  {
    if s == {} then None
    else
      LeastExists(s);
      var least :| least in s && forall y :: y in s ==> least.score <= y.score;
      Some(least)
  }

  /** Python's `int` of a number of seconds given in ticks. */
  function Seconds(ticks: int): int {
    if ticks >= 0 then ticks / TICKS else -(-ticks / TICKS)
  }

  function Max(a: int, b: int): int { if a < b then b else a }

  /** `_retry_after_from_oldest`. */
  function RetryAfter(oldest: Option<Member>, window: nat, now: int): int {
    match oldest
    case None => Max(1, window)
    case Some(first) => Max(1, Seconds(first.score + window * TICKS - now))
  }

  /***** What a key holds: the touches of its window *****/

  /** The touches that lie in (at - window, at]. */
  ghost function InWindow(touches: set<Member>, window: nat, at: int): set<Member> {
    set h | h in touches && at - window * TICKS < h.score <= at
  }

  /** The key stands for all `touches` ever made to it: it is absent when there
      were none, and otherwise holds those in the window that ends with the
      last of them. */
  ghost predicate Represents(zs: ZSets, key: Key, window: nat, ttl: nat, touches: set<Member>) {
    && (key in zs <==> touches != {})
    && (key in zs ==>
          var last := zs[key].deadline - ttl * TICKS;
          && Member(last) in touches
          && (forall h :: h in touches ==> 0 <= h.score <= last)
          && zs[key].members == InWindow(touches, window, last))
  }

  /** Touching a key that stands for its touches leaves exactly the touches in
      (now - window, now]: neither the trimming nor an expiry of the key in
      between loses a touch that still counts, or keeps one that does not. */
  lemma TouchRepresents(zs: ZSets, key: Key, window: nat, ttl: nat, touches: set<Member>, now: int)
    requires Represents(zs, key, window, ttl, touches)
    requires 0 <= now && forall h :: h in touches ==> h.score <= now
    requires 0 < window <= ttl
    ensures Touched(zs, key, window, ttl, now).members == InWindow(touches + {Member(now)}, window, now)
    ensures Represents(zs[key := Touched(zs, key, window, ttl, now)], key, window, ttl, touches + {Member(now)})
  {
    var z := Touched(zs, key, window, ttl, now);
    var kept := InWindow(touches + {Member(now)}, window, now);
    forall m ensures m in z.members <==> m in kept {
      if key in zs {
        assert Member(zs[key].deadline - ttl * TICKS) in touches;
      }
    }
    assert z.members == kept;
  }

  /** On a breach the advice is between one second and the whole window; a second
      after it the oldest counted event has left the window; and it is no longer
      than that event needs, unless it is the least there is. */
  lemma RetryAfterBounds(members: set<Member>, window: nat, now: int)
    requires 0 < window && Member(now) in members
    requires forall m :: m in members ==> now - window * TICKS < m.score <= now
    ensures 1 <= RetryAfter(Oldest(members), window, now) <= window
    ensures var retry, oldest := RetryAfter(Oldest(members), window, now), Oldest(members).value.score;
            && oldest <= now + (retry + 1) * TICKS - window * TICKS
            && (retry == 1 || retry * TICKS <= oldest + window * TICKS - now)
  {
    var first := Oldest(members).value.score;
    var wait := first + window * TICKS - now;
    assert 0 < wait <= window * TICKS;
    assert (wait / TICKS) * TICKS <= wait < (wait / TICKS + 1) * TICKS;
  }

  /** What a retry at `later` with nothing in between is counted against: the
      events counted at the breach, the refused request included, that are still
      in the window, and itself. */
  lemma RetryCount(zs: ZSets, key: Key, window: nat, ttl: nat, now: int, later: int)
    requires 0 < window <= ttl && 0 <= now < later
    requires forall m :: m in LiveMembers(zs, key, now) ==> 0 <= m.score <= now
    ensures var z := Touched(zs, key, window, ttl, now);
            |Touched(zs[key := z], key, window, ttl, later).members| == |InWindow(z.members, window, later)| + 1
  {
    var z := Touched(zs, key, window, ttl, now);
    var z' := Touched(zs[key := z], key, window, ttl, later);
    forall m ensures m in z'.members <==> m in InWindow(z.members, window, later) + {Member(later)} {
      assert m in z.members ==> 0 <= m.score <= now;
    }
    assert z'.members == InWindow(z.members, window, later) + {Member(later)};
  }

  lemma OneMoreInWindow(touches: set<Member>, window: nat, now: int)
    requires 0 < window && forall m :: m in touches ==> m.score < now
    ensures |InWindow(touches + {Member(now)}, window, now)| == |InWindow(touches, window, now)| + 1
  {
    assert InWindow(touches + {Member(now)}, window, now) == InWindow(touches, window, now) + {Member(now)};
  }

  /** One key at one request a minute: a request at 0, a refused one at 30 that is
      told to wait 30 seconds, and the retry at 60 that does so. */
  lemma ThreeTouches(key: Key)
    ensures var z0 := Touched(map[], key, 60, 70, 0);
            var z1 := Touched(map[key := z0], key, 60, 70, 30 * TICKS);
            var z2 := Touched(map[key := z1], key, 60, 70, 60 * TICKS);
            && |z0.members| <= 1 && |z1.members| > 1
            && RetryAfter(Oldest(z1.members), 60, 30 * TICKS) == 30
            && |z2.members| > 1
  {
    var z0, z1, z2 := ZSet({Member(0)}, 70 * TICKS), ZSet({Member(0), Member(30 * TICKS)}, 100 * TICKS),
                      ZSet({Member(30 * TICKS), Member(60 * TICKS)}, 130 * TICKS);
    TouchIs(map[], key, 0, z0);
    TouchIs(map[key := z0], key, 30 * TICKS, z1);
    TouchIs(map[key := z1], key, 60 * TICKS, z2);
    assert Oldest(z1.members).value == Member(0);
    assert Member(30 * TICKS) != Member(60 * TICKS);
  }

  lemma TouchIs(zs: ZSets, key: Key, now: int, z: ZSet)
    requires z.deadline == now + 70 * TICKS
    requires forall m :: m in z.members <==> m in LiveMembers(zs, key, now) + {Member(now)} && !(0 <= m.score <= now - 60 * TICKS)
    ensures Touched(zs, key, 60, 70, now) == z
  {
    assert Touched(zs, key, 60, 70, now).members == z.members;
  }

  /***** Sizes of sets *****/

  lemma {:induction false} SubsetSize<T>(a: set<T>, b: set<T>)
    requires a <= b
    ensures |a| <= |b|
  {
    assert b == a + (b - a);
  }

  /** Distinct indices with distinct times are as many as the times. */
  lemma {:induction false} IndicesAsTimes(indices: set<nat>, time: nat -> Member)
    requires forall i, j :: i in indices && j in indices && i != j ==> time(i) != time(j)
    ensures |indices| == |set i | i in indices :: time(i)|
    decreases |indices|
  {
    if indices != {} {
      var i :| i in indices;
      var rest := indices - {i};
      IndicesAsTimes(rest, time);
      assert (set j | j in indices :: time(j)) == (set j | j in rest :: time(j)) + {time(i)};
      assert time(i) !in (set j | j in rest :: time(j));
    }
  }
}
