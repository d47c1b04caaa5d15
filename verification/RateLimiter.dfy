/**
 * The rate limiters of src/django_waf/services/rate_limiter.py over one Redis:
 * the three global windows of `check_rate_limit`, the per-path limit it checks
 * first, and the solve-rate limit of `check_verify_rate_limit`.
 */
module RateLimiter {
  import opened Wrappers
  import opened SlidingWindow

  /** One entry of DJANGO_WAF_RATE_LIMIT_PATHS; `methods` is the optional third
      item. */
  datatype PathLimit = PathLimit(prefix: string, maxRequests: nat, window: nat, methods: Option<set<string>>)

  /** The settings. The three thresholds are those of the 1s, 1m and 5m windows. */
  datatype Config = Config(burst: nat, perMinute: nat, perFiveMinutes: nat,
                           paths: seq<PathLimit>, verifyMax: nat, verifyWindow: nat)

  /** Windows are positive, and a dict has one entry a key. */
  predicate ValidConfig(c: Config) {
    && c.verifyWindow > 0
    && (forall i :: 0 <= i < |c.paths| ==> c.paths[i].window > 0)
    && (forall i, j :: 0 <= i < j < |c.paths| ==> c.paths[i].prefix != c.paths[j].prefix)
  }

  datatype Breach = Global(window: nat) | Path | Verify
  datatype Result = Within | Exceeded(breach: Breach, retryAfter: int)

  /** `_WINDOWS` with the TTL buffers, by index. */
  function WindowSeconds(w: nat): nat { if w == 0 then 1 else if w == 1 then 60 else 300 }
  function WindowTtl(w: nat): nat { WindowSeconds(w) + if w == 0 then 2 else 10 }
  function Threshold(c: Config, w: nat): nat {
    if w == 0 then c.burst else if w == 1 then c.perMinute else c.perFiveMinutes
  }

  /***** Which path entry applies *****/

  function UpperChar(ch: char): char {
    if 'a' <= ch <= 'z' then (ch as int - 32) as char else ch
  }

  /** `str.upper` on an HTTP method, an ASCII token. */
  function Upper(s: string): string {
    seq(|s|, i requires 0 <= i < |s| => UpperChar(s[i]))
  }

  /** `_entry_applies_to_method`; `verb` is already in upper case. */
  predicate Applies(p: PathLimit, verb: string) {
    p.methods.None? || (verb != "" && exists m | m in p.methods.value :: Upper(m) == verb)
  }

  predicate StartsWith(path: string, prefix: string) { prefix <= path }

  /** The candidates in order of decreasing length, as `sorted` leaves them. */
  function InsertLonger(p: PathLimit, sorted: seq<PathLimit>): seq<PathLimit> {
    if sorted == [] || |sorted[0].prefix| <= |p.prefix| then [p] + sorted
    else [sorted[0]] + InsertLonger(p, sorted[1..])
  }

  function Candidates(paths: seq<PathLimit>, path: string): seq<PathLimit> {
    if paths == [] then []
    else if StartsWith(path, paths[0].prefix) then InsertLonger(paths[0], Candidates(paths[1..], path))
    else Candidates(paths[1..], path)
  }

  /** What is resolved, said without an order: the entry with the longest prefix
      of the path among those whose scope covers the method. */
  ghost predicate Resolves(paths: seq<PathLimit>, path: string, verb: string, r: Option<PathLimit>) {
    match r
    case None => path == "" || forall p :: p in paths && StartsWith(path, p.prefix) ==> !Applies(p, verb)
    case Some(q) =>
      && path != ""
      && q in paths && StartsWith(path, q.prefix) && Applies(q, verb)
      && forall p :: p in paths && StartsWith(path, p.prefix) && Applies(p, verb) ==> |p.prefix| <= |q.prefix|
  }

  ghost predicate LongestFirst(ps: seq<PathLimit>) {
    ps == [] || (LongestFirst(ps[1..]) && forall p :: p in ps[1..] ==> |p.prefix| <= |ps[0].prefix|)
  }

  lemma {:induction false} InsertLongerKeeps(p: PathLimit, sorted: seq<PathLimit>)
    requires LongestFirst(sorted)
    ensures LongestFirst(InsertLonger(p, sorted))
    ensures forall q :: q in InsertLonger(p, sorted) <==> q == p || q in sorted
  {
    if sorted == [] {
    } else if |sorted[0].prefix| <= |p.prefix| {
      assert ([p] + sorted)[1..] == sorted;
      assert sorted == [sorted[0]] + sorted[1..];
    } else {
      InsertLongerKeeps(p, sorted[1..]);
      var tail := InsertLonger(p, sorted[1..]);
      assert ([sorted[0]] + tail)[1..] == tail;
      assert sorted == [sorted[0]] + sorted[1..];
    }
  }

  lemma {:induction false} CandidatesSorted(paths: seq<PathLimit>, path: string)
    ensures LongestFirst(Candidates(paths, path))
    ensures forall p :: p in Candidates(paths, path) <==> p in paths && StartsWith(path, p.prefix)
  {
    if paths != [] {
      CandidatesSorted(paths[1..], path);
      assert paths == [paths[0]] + paths[1..];
      if StartsWith(path, paths[0].prefix) {
        InsertLongerKeeps(paths[0], Candidates(paths[1..], path));
      }
    }
  }

  lemma {:induction false} LongestFirstSuffix(ps: seq<PathLimit>, i: nat, j: nat)
    requires LongestFirst(ps) && i <= j < |ps|
    ensures |ps[j].prefix| <= |ps[i].prefix|
  {
    if i == 0 {
      assert j > 0 ==> ps[j] == ps[1..][j - 1];
    } else {
      LongestFirstSuffix(ps[1..], i - 1, j - 1);
    }
  }

  /** The resolution loop of `_check_path_rate_limit`: candidates longest first,
      falling through those whose method scope excludes the request. */
  method ResolvePath(paths: seq<PathLimit>, path: string, verb: string) returns (matched: Option<PathLimit>)
    ensures Resolves(paths, path, Upper(verb), matched)
    ensures matched.Some? ==> matched.value in paths && Fits(matched.value, path, verb)
    ensures matched.None? && path != "" ==> forall p :: p in paths ==> !Fits(p, path, verb)
  {
    forall p ensures Fits(p, path, verb) <==> StartsWith(path, p.prefix) && Applies(p, Upper(verb)) {
      FitsIs(p, path, verb);
    }
    if path == "" || paths == [] {
      return None;
    }
    var upper := Upper(verb);
    var candidates := Candidates(paths, path);
    CandidatesSorted(paths, path);
    matched := None;
    var i := 0;
    while i < |candidates|
      invariant 0 <= i <= |candidates|
      invariant matched == None
      invariant forall j :: 0 <= j < i ==> !Applies(candidates[j], upper)
    {
      if Applies(candidates[i], upper) {
        matched := Some(candidates[i]);
        forall p | p in paths && StartsWith(path, p.prefix) && Applies(p, upper) ensures |p.prefix| <= |candidates[i].prefix| {
          var j :| 0 <= j < |candidates| && candidates[j] == p;
          LongestFirstSuffix(candidates, i, j);
        }
        return;
      }
      i := i + 1;
    }
  }

  /** Prefixes of one path that have the same length are the same, so the entry
      is determined. */
  lemma ResolutionIsUnique(c: Config, path: string, verb: string, a: Option<PathLimit>, b: Option<PathLimit>)
    requires ValidConfig(c) && Resolves(c.paths, path, verb, a) && Resolves(c.paths, path, verb, b)
    ensures a == b
  {
    if a.Some? && b.Some? {
      assert |a.value.prefix| == |b.value.prefix|;
      assert a.value.prefix == path[..|a.value.prefix|] && b.value.prefix == path[..|b.value.prefix|];
      var i :| 0 <= i < |c.paths| && c.paths[i] == a.value;
      var j :| 0 <= j < |c.paths| && c.paths[j] == b.value;
      assert i == j;
    }
  }

  /** An entry added for some methods, anywhere in the settings, changes nothing
      for a request with another method. */
  lemma ScopedEntryIsLocal(before: seq<PathLimit>, added: PathLimit, after: seq<PathLimit>,
                           path: string, verb: string, r: Option<PathLimit>)
    requires !Applies(added, verb)
    ensures Resolves(before + [added] + after, path, verb, r) <==> Resolves(before + after, path, verb, r)
  {
    assert forall p :: p in before + [added] + after <==> p == added || p in before + after;
  }

  /** The resolved entry as a function, the shape the limiter's specification
      needs. */
  ghost function Resolved(paths: seq<PathLimit>, path: string, verb: string): Option<PathLimit>
    ensures Resolves(paths, path, verb, Resolved(paths, path, verb))
  {
    SomeResolution(paths, path, verb);
    var r :| Resolves(paths, path, verb, r);
    r
  }

  lemma {:induction false} SomeResolution(paths: seq<PathLimit>, path: string, verb: string)
    ensures exists r :: Resolves(paths, path, verb, r)
  {
    if path == "" || paths == [] {
      assert Resolves(paths, path, verb, None);
    } else {
      SomeResolution(paths[1..], path, verb);
      var r :| Resolves(paths[1..], path, verb, r);
      assert paths == [paths[0]] + paths[1..];
      var p := paths[0];
      var better := StartsWith(path, p.prefix) && Applies(p, verb) && (r.None? || |r.value.prefix| <= |p.prefix|);
      assert Resolves(paths, path, verb, if better then Some(p) else r);
    }
  }

  /***** The checks *****/

  datatype Call =
    | Request(ip: string, now: int, path: string, verb: string)
    | VerifyPost(ip: string, now: int)

  /** What a call leaves behind, what it answers and which keys it touched. */
  datatype Outcome = Outcome(zsets: ZSets, result: Result, touched: set<Key>)

  ghost function TouchKey(zs: ZSets, key: Key, window: nat, ttl: nat, now: int, limit: nat, breach: Breach): Outcome {
    var z := Touched(zs, key, window, ttl, now);
    Outcome(zs[key := z],
            if |z.members| > limit then Exceeded(breach, RetryAfter(Oldest(z.members), window, now)) else Within,
            {key})
  }

  /** The window loop of `check_rate_limit` from window w on. */
  ghost function CheckWindows(c: Config, zs: ZSets, ip: string, now: int, w: nat): Outcome
    decreases 3 - w
  {
    if w >= 3 then Outcome(zs, Within, {})
    else
      var o := TouchKey(zs, GlobalKey(ip, w), WindowSeconds(w), WindowTtl(w), now, Threshold(c, w), Global(w));
      if o.result.Exceeded? then o
      else
        var rest := CheckWindows(c, o.zsets, ip, now, w + 1);
        Outcome(rest.zsets, rest.result, o.touched + rest.touched)
  }

  ghost function CheckPath(c: Config, zs: ZSets, ip: string, path: string, verb: string, now: int): Outcome {
    match Resolved(c.paths, path, Upper(verb))
    case None => Outcome(zs, Within, {})
    case Some(p) => TouchKey(zs, PathKey(ip, p.prefix), p.window, p.window + 10, now, p.maxRequests, Path)
  }

  ghost function Check(c: Config, zs: ZSets, call: Call): Outcome {
    match call
    case VerifyPost(ip, now) =>
      TouchKey(zs, VerifyKey(ip), c.verifyWindow, c.verifyWindow + 10, now, c.verifyMax, Verify)
    case Request(ip, now, path, verb) =>
      var o := CheckPath(c, zs, ip, path, verb, now);
      if o.result.Exceeded? then o
      else
        var rest := CheckWindows(c, o.zsets, ip, now, 0);
        Outcome(rest.zsets, rest.result, o.touched + rest.touched)
  }

  /** The Redis the limiters work on. */
  class RateStore {
    var zsets: ZSets

    constructor ()
      ensures zsets == map[]
    {
      zsets := map[];
    }

    /** The pipeline on one key: the count and the oldest member after trimming. */
    method Touch(key: Key, window: nat, ttl: nat, now: int) returns (count: nat, oldest: Option<Member>)
      modifies this
      ensures zsets == old(zsets)[key := Touched(old(zsets), key, window, ttl, now)]
      ensures count == |zsets[key].members| && oldest == Oldest(zsets[key].members)
    {
      zsets := zsets[key := Touched(zsets, key, window, ttl, now)];
      count := |zsets[key].members|;
      oldest := Oldest(zsets[key].members);
    }

    /** `_check_path_rate_limit`; None when no entry applies or none is breached. */
    method CheckPathLimit(c: Config, ip: string, path: string, verb: string, now: int) returns (r: Option<Result>)
      requires ValidConfig(c)
      modifies this
      ensures var o := CheckPath(c, old(zsets), ip, path, verb, now);
              zsets == o.zsets && r == if o.result.Exceeded? then Some(o.result) else None
    {
      var matched := ResolvePath(c.paths, path, verb);
      ResolutionIsUnique(c, path, Upper(verb), matched, Resolved(c.paths, path, Upper(verb)));
      if matched.None? {
        return None;
      }
      var p := matched.value;
      var count, oldest := Touch(PathKey(ip, p.prefix), p.window, p.window + 10, now);
      if count > p.maxRequests {
        return Some(Exceeded(Path, RetryAfter(oldest, p.window, now)));
      }
      return None;
    }

    /** `check_rate_limit`. */
    method CheckRateLimit(c: Config, ip: string, now: int, path: string, verb: string) returns (r: Result)
      requires ValidConfig(c)
      modifies this
      ensures var o := Check(c, old(zsets), Request(ip, now, path, verb));
              zsets == o.zsets && r == o.result
    {
      var pathResult := CheckPathLimit(c, ip, path, verb, now);
      if pathResult.Some? {
        return pathResult.value;
      }
      ghost var start := zsets;
      var w := 0;
      while w < 3
        invariant 0 <= w <= 3
        invariant var whole, rest := CheckWindows(c, start, ip, now, 0), CheckWindows(c, zsets, ip, now, w);
                  whole.zsets == rest.zsets && whole.result == rest.result
      {
        var count, oldest := Touch(GlobalKey(ip, w), WindowSeconds(w), WindowTtl(w), now);
        if count > Threshold(c, w) {
          return Exceeded(Global(w), RetryAfter(oldest, WindowSeconds(w), now));
        }
        w := w + 1;
      }
      return Within;
    }

    /** `check_verify_rate_limit`. */
    method CheckVerifyRateLimit(c: Config, ip: string, now: int) returns (r: Result)
      modifies this
      ensures var o := Check(c, old(zsets), VerifyPost(ip, now));
              zsets == o.zsets && r == o.result
    {
      var count, oldest := Touch(VerifyKey(ip), c.verifyWindow, c.verifyWindow + 10, now);
      if count > c.verifyMax {
        return Exceeded(Verify, RetryAfter(oldest, c.verifyWindow, now));
      }
      return Within;
    }
  }

  /***** What one call does to every key *****/

  /** The window and TTL a key is always touched with. */
  ghost predicate KeyTiming(c: Config, key: Key, window: nat, ttl: nat) {
    match key
    case GlobalKey(_, w) => w < 3 && window == WindowSeconds(w) && ttl == WindowTtl(w)
    case VerifyKey(_) => window == c.verifyWindow && ttl == c.verifyWindow + 10
    case PathKey(_, prefix) => exists p :: p in c.paths && p.prefix == prefix && window == p.window && ttl == p.window + 10
  }

  lemma TimingIsUnique(c: Config, key: Key, w1: nat, t1: nat, w2: nat, t2: nat)
    requires ValidConfig(c) && KeyTiming(c, key, w1, t1) && KeyTiming(c, key, w2, t2)
    ensures w1 == w2 && t1 == t2 && 0 < w1 <= t1
  {
    if key.PathKey? {
      var p :| p in c.paths && p.prefix == key.prefix && w1 == p.window && t1 == p.window + 10;
      var q :| q in c.paths && q.prefix == key.prefix && w2 == q.window && t2 == q.window + 10;
      var i :| 0 <= i < |c.paths| && c.paths[i] == p;
      var j :| 0 <= j < |c.paths| && c.paths[j] == q;
      assert i == j;
    }
  }

  /** The effect of an outcome on one key: touched once, or left alone. */
  ghost predicate Effect(c: Config, zs: ZSets, now: int, o: Outcome, key: Key) {
    if key in o.touched then
      && key in o.zsets
      && exists window, ttl :: KeyTiming(c, key, window, ttl) && o.zsets[key] == Touched(zs, key, window, ttl, now)
    else
      (key in o.zsets <==> key in zs) && (key in zs ==> o.zsets[key] == zs[key])
  }

  /** The call touched the key and left at most `limit` members in it. */
  ghost predicate Few(o: Outcome, key: Key, limit: nat) {
    key in o.touched && key in o.zsets && |o.zsets[key].members| <= limit
  }

  ghost function FirstTouch(c: Config, zs: ZSets, ip: string, now: int, w: nat): Outcome {
    TouchKey(zs, GlobalKey(ip, w), WindowSeconds(w), WindowTtl(w), now, Threshold(c, w), Global(w))
  }

  lemma {:induction false} WindowTouches(c: Config, zs: ZSets, ip: string, now: int, w: nat)
    requires w <= 3
    ensures forall key :: key in CheckWindows(c, zs, ip, now, w).touched ==>
              key.GlobalKey? && key.ip == ip && w <= key.window < 3
    decreases 3 - w
  {
    if w < 3 {
      WindowTouches(c, FirstTouch(c, zs, ip, now, w).zsets, ip, now, w + 1);
    }
  }

  lemma {:induction false} EarlierWindowsToo(c: Config, zs: ZSets, ip: string, now: int, w: nat, v: nat, u: nat)
    requires w <= v <= u < 3 && GlobalKey(ip, u) in CheckWindows(c, zs, ip, now, w).touched
    ensures GlobalKey(ip, v) in CheckWindows(c, zs, ip, now, w).touched
    decreases 3 - w
  {
    if w < v {
      LaterTouched(c, zs, ip, now, w, u);
      EarlierWindowsToo(c, FirstTouch(c, zs, ip, now, w).zsets, ip, now, w + 1, v, u);
      LaterTouched(c, zs, ip, now, w, v);
    }
  }

  /** A later window is touched when the first lets the request go on to it. */
  lemma LaterTouched(c: Config, zs: ZSets, ip: string, now: int, w: nat, u: nat)
    requires w < u < 3
    ensures GlobalKey(ip, u) in CheckWindows(c, zs, ip, now, w).touched
            <==> && FirstTouch(c, zs, ip, now, w).result.Within?
                 && GlobalKey(ip, u) in CheckWindows(c, FirstTouch(c, zs, ip, now, w).zsets, ip, now, w + 1).touched
  {
  }

  lemma FirstEffect(c: Config, zs: ZSets, ip: string, now: int, w: nat, key: Key)
    requires w < 3
    ensures Effect(c, zs, now, FirstTouch(c, zs, ip, now, w), key)
  {
    assert KeyTiming(c, GlobalKey(ip, w), WindowSeconds(w), WindowTtl(w));
  }

  lemma {:induction false} WindowEffect(c: Config, zs: ZSets, ip: string, now: int, w: nat, key: Key)
    requires w <= 3
    ensures Effect(c, zs, now, CheckWindows(c, zs, ip, now, w), key)
    decreases 3 - w
  {
    if w < 3 {
      var first := FirstTouch(c, zs, ip, now, w);
      FirstEffect(c, zs, ip, now, w, key);
      if first.result.Within? {
        var rest := CheckWindows(c, first.zsets, ip, now, w + 1);
        WindowEffect(c, first.zsets, ip, now, w + 1, key);
        assert key !in first.touched || key !in rest.touched by {
          WindowTouches(c, first.zsets, ip, now, w + 1);
        }
        EffectsCompose(c, zs, now, first, rest, key);
      }
    }
  }

  lemma {:induction false} WindowsFew(c: Config, zs: ZSets, ip: string, now: int, w: nat, v: nat)
    requires w <= v < 3 && CheckWindows(c, zs, ip, now, w).result.Within?
    ensures Few(CheckWindows(c, zs, ip, now, w), GlobalKey(ip, v), Threshold(c, v))
    decreases 3 - w
  {
    if w < v {
      WindowsFew(c, FirstTouch(c, zs, ip, now, w).zsets, ip, now, w + 1, v);
    } else {
      FirstFew(c, zs, ip, now, w);
    }
  }

  lemma FirstFew(c: Config, zs: ZSets, ip: string, now: int, w: nat)
    requires w < 3 && CheckWindows(c, zs, ip, now, w).result.Within?
    ensures Few(CheckWindows(c, zs, ip, now, w), GlobalKey(ip, w), Threshold(c, w))
  {
    var first := FirstTouch(c, zs, ip, now, w);
    var rest := CheckWindows(c, first.zsets, ip, now, w + 1);
    assert GlobalKey(ip, w) !in rest.touched by {
      WindowTouches(c, first.zsets, ip, now, w + 1);
    }
    WindowEffect(c, first.zsets, ip, now, w + 1, GlobalKey(ip, w));
  }

  /** What the window loop does to every key. */
  lemma WindowsEffect(c: Config, zs: ZSets, ip: string, now: int, w: nat)
    requires w <= 3
    ensures var o := CheckWindows(c, zs, ip, now, w);
            && (forall key :: Effect(c, zs, now, o, key))
            && (forall key :: key in o.touched ==> key.GlobalKey? && key.ip == ip && w <= key.window < 3)
            && (forall v, u :: w <= v <= u < 3 && GlobalKey(ip, u) in o.touched ==> GlobalKey(ip, v) in o.touched)
            && (o.result.Within? ==> forall v :: w <= v < 3 ==> Few(o, GlobalKey(ip, v), Threshold(c, v)))
  {
    var o := CheckWindows(c, zs, ip, now, w);
    WindowTouches(c, zs, ip, now, w);
    forall v, u | w <= v <= u < 3 && GlobalKey(ip, u) in o.touched ensures GlobalKey(ip, v) in o.touched {
      EarlierWindowsToo(c, zs, ip, now, w, v, u);
    }
    forall key ensures Effect(c, zs, now, o, key) {
      WindowEffect(c, zs, ip, now, w, key);
    }
    if o.result.Within? {
      forall v | w <= v < 3 ensures Few(o, GlobalKey(ip, v), Threshold(c, v)) {
        WindowsFew(c, zs, ip, now, w, v);
      }
    }
  }

  lemma PathEffect(c: Config, zs: ZSets, ip: string, path: string, verb: string, now: int)
    ensures var o := CheckPath(c, zs, ip, path, verb, now);
            && (forall key :: Effect(c, zs, now, o, key))
            && (forall key :: key in o.touched ==> key.PathKey?)
            && (o.result.Exceeded? ==> o.result.breach.Path?)
            && (Resolved(c.paths, path, Upper(verb)).Some? ==>
                  var p := Resolved(c.paths, path, Upper(verb)).value;
                  o.result.Within? ==> Few(o, PathKey(ip, p.prefix), p.maxRequests))
  {
    var r := Resolved(c.paths, path, Upper(verb));
    if r.Some? {
      assert KeyTiming(c, PathKey(ip, r.value.prefix), r.value.window, r.value.window + 10);
    }
  }

  /** Two stages one after the other that touch different keys. */
  lemma EffectsCompose(c: Config, zs: ZSets, now: int, a: Outcome, b: Outcome, key: Key)
    requires Effect(c, zs, now, a, key) && Effect(c, a.zsets, now, b, key)
    requires key !in a.touched || key !in b.touched
    ensures Effect(c, zs, now, Outcome(b.zsets, b.result, a.touched + b.touched), key)
  {
    if key in b.touched {
      var window, ttl :| KeyTiming(c, key, window, ttl) && b.zsets[key] == Touched(a.zsets, key, window, ttl, now);
      assert Touched(a.zsets, key, window, ttl, now) == Touched(zs, key, window, ttl, now);
    }
  }

  lemma RequestEffect(c: Config, zs: ZSets, call: Call)
    requires call.Request?
    ensures var o := Check(c, zs, call);
            && (forall key :: Effect(c, zs, call.now, o, key))
            && (forall key :: key in o.touched ==> key.ip == call.ip)
            && (forall v, u :: 0 <= v <= u < 3 && GlobalKey(call.ip, u) in o.touched ==> GlobalKey(call.ip, v) in o.touched)
            && (o.result.Within? ==> forall v :: 0 <= v < 3 ==> Few(o, GlobalKey(call.ip, v), Threshold(c, v)))
  {
    var first := CheckPath(c, zs, call.ip, call.path, call.verb, call.now);
    PathEffect(c, zs, call.ip, call.path, call.verb, call.now);
    if !first.result.Exceeded? {
      WindowsEffect(c, first.zsets, call.ip, call.now, 0);
      var rest := CheckWindows(c, first.zsets, call.ip, call.now, 0);
      forall k ensures Effect(c, zs, call.now, Check(c, zs, call), k) {
        EffectsCompose(c, zs, call.now, first, rest, k);
      }
    }
  }

  lemma PathPassed(c: Config, zs: ZSets, call: Call, p: PathLimit)
    requires call.Request? && Resolved(c.paths, call.path, Upper(call.verb)) == Some(p)
    requires var o := Check(c, zs, call); !(o.result.Exceeded? && o.result.breach.Path?)
    ensures Few(Check(c, zs, call), PathKey(call.ip, p.prefix), p.maxRequests)
  {
    var first := CheckPath(c, zs, call.ip, call.path, call.verb, call.now);
    PathEffect(c, zs, call.ip, call.path, call.verb, call.now);
    WindowsEffect(c, first.zsets, call.ip, call.now, 0);
    var rest := CheckWindows(c, first.zsets, call.ip, call.now, 0);
    assert Effect(c, first.zsets, call.now, rest, PathKey(call.ip, p.prefix));
  }

  lemma VerifyEffect(c: Config, zs: ZSets, call: Call)
    requires call.VerifyPost?
    ensures var o := Check(c, zs, call);
            && (forall key :: Effect(c, zs, call.now, o, key))
            && o.touched == {VerifyKey(call.ip)}
            && (o.result.Within? ==> Few(o, VerifyKey(call.ip), c.verifyMax))
            && (o.result.Exceeded? ==> o.result.retryAfter == RetryAfter(Oldest(o.zsets[VerifyKey(call.ip)].members), c.verifyWindow, call.now))
  {
    assert KeyTiming(c, VerifyKey(call.ip), c.verifyWindow, c.verifyWindow + 10);
  }

  /***** Whole runs *****/

  ghost function Before(outs: seq<Outcome>, i: nat): ZSets
    requires i <= |outs|
  {
    if i == 0 then map[] else outs[i - 1].zsets
  }

  /** The clock never goes back. */
  ghost predicate Clock(calls: seq<Call>) {
    && (forall i :: 0 <= i < |calls| ==> 0 <= calls[i].now)
    && (forall i, j :: 0 <= i < j < |calls| ==> calls[i].now <= calls[j].now)
  }

  ghost predicate StrictClock(calls: seq<Call>) {
    forall i, j :: 0 <= i < j < |calls| ==> calls[i].now < calls[j].now
  }

  /** A run of the limiters from an empty Redis. */
  ghost predicate IsRun(c: Config, calls: seq<Call>, outs: seq<Outcome>) {
    && |calls| == |outs|
    && Clock(calls)
    && forall i :: 0 <= i < |calls| ==> Answered(c, calls, outs, i)
  }

  ghost predicate Answered(c: Config, calls: seq<Call>, outs: seq<Outcome>, i: nat)
    requires i < |calls| == |outs|
  {
    outs[i] == Check(c, Before(outs, i), calls[i])
  }

  /** All the window arguments need of a run: each call touches a key once or
      leaves it alone. */
  ghost predicate Tracked(c: Config, calls: seq<Call>, outs: seq<Outcome>, key: Key) {
    && |calls| == |outs|
    && Clock(calls)
    && forall i :: 0 <= i < |calls| ==> EffectAt(c, calls, outs, key, i)
  }

  ghost predicate EffectAt(c: Config, calls: seq<Call>, outs: seq<Outcome>, key: Key, i: nat)
    requires i < |calls| == |outs|
  {
    Effect(c, Before(outs, i), calls[i].now, outs[i], key)
  }

  lemma RunIsTracked(c: Config, calls: seq<Call>, outs: seq<Outcome>, key: Key)
    requires IsRun(c, calls, outs)
    ensures Tracked(c, calls, outs, key)
  {
    forall i | 0 <= i < |calls| ensures EffectAt(c, calls, outs, key, i) {
      assert Answered(c, calls, outs, i);
      if calls[i].Request? {
        RequestEffect(c, Before(outs, i), calls[i]);
      } else {
        VerifyEffect(c, Before(outs, i), calls[i]);
      }
    }
  }

  /** The times at which the first n calls touched a key. */
  ghost function Touches(calls: seq<Call>, outs: seq<Outcome>, key: Key, n: nat): set<Member>
    requires |calls| == |outs| && n <= |calls|
  {
    set i | 0 <= i < n && key in outs[i].touched :: Member(calls[i].now)
  }

  /** The timed touch a tracked call makes. */
  lemma TrackedTouch(c: Config, calls: seq<Call>, outs: seq<Outcome>, n: nat, key: Key, window: nat, ttl: nat)
    requires ValidConfig(c) && Tracked(c, calls, outs, key) && n < |calls| && KeyTiming(c, key, window, ttl)
    requires key in outs[n].touched
    ensures 0 < window <= ttl
    ensures key in outs[n].zsets && outs[n].zsets[key] == Touched(Before(outs, n), key, window, ttl, calls[n].now)
    ensures Touches(calls, outs, key, n + 1) == Touches(calls, outs, key, n) + {Member(calls[n].now)}
    ensures forall h :: h in Touches(calls, outs, key, n) ==> h.score <= calls[n].now
  {
    assert EffectAt(c, calls, outs, key, n);
    var w, t :| KeyTiming(c, key, w, t) && outs[n].zsets[key] == Touched(Before(outs, n), key, w, t, calls[n].now);
    TimingIsUnique(c, key, window, ttl, w, t);
  }

  /** What a key stands for does not depend on the other keys. */
  lemma RepresentsLocally(zs: ZSets, zs': ZSets, key: Key, window: nat, ttl: nat, touches: set<Member>)
    requires Represents(zs, key, window, ttl, touches)
    requires (key in zs <==> key in zs') && (key in zs ==> zs'[key] == zs[key])
    ensures Represents(zs', key, window, ttl, touches)
  {
  }

  lemma TouchThenElsewhere(zs: ZSets, zs': ZSets, key: Key, window: nat, ttl: nat, touches: set<Member>, now: int)
    requires Represents(zs, key, window, ttl, touches) && 0 < window <= ttl
    requires 0 <= now && forall h :: h in touches ==> h.score <= now
    requires key in zs' && zs'[key] == Touched(zs, key, window, ttl, now)
    ensures Represents(zs', key, window, ttl, touches + {Member(now)})
  {
    TouchRepresents(zs, key, window, ttl, touches, now);
    RepresentsLocally(zs[key := zs'[key]], zs', key, window, ttl, touches + {Member(now)});
  }

  lemma UntouchedStays(c: Config, calls: seq<Call>, outs: seq<Outcome>, n: nat, key: Key, window: nat, ttl: nat)
    requires Tracked(c, calls, outs, key) && n < |calls| && key !in outs[n].touched
    requires Represents(Before(outs, n), key, window, ttl, Touches(calls, outs, key, n))
    ensures Represents(outs[n].zsets, key, window, ttl, Touches(calls, outs, key, n + 1))
  {
    assert EffectAt(c, calls, outs, key, n);
    assert Touches(calls, outs, key, n + 1) == Touches(calls, outs, key, n);
    RepresentsLocally(Before(outs, n), outs[n].zsets, key, window, ttl, Touches(calls, outs, key, n));
  }

  lemma TouchedGains(c: Config, calls: seq<Call>, outs: seq<Outcome>, n: nat, key: Key, window: nat, ttl: nat)
    requires ValidConfig(c) && Tracked(c, calls, outs, key) && n < |calls| && KeyTiming(c, key, window, ttl)
    requires key in outs[n].touched
    requires Represents(Before(outs, n), key, window, ttl, Touches(calls, outs, key, n))
    ensures Represents(outs[n].zsets, key, window, ttl, Touches(calls, outs, key, n + 1))
  {
    TrackedTouch(c, calls, outs, n, key, window, ttl);
    TouchThenElsewhere(Before(outs, n), outs[n].zsets, key, window, ttl, Touches(calls, outs, key, n), calls[n].now);
  }

  lemma NothingTouched(calls: seq<Call>, outs: seq<Outcome>, key: Key, window: nat, ttl: nat)
    requires |calls| == |outs|
    ensures Represents(Before(outs, 0), key, window, ttl, Touches(calls, outs, key, 0))
  {
    assert Touches(calls, outs, key, 0) == {};
  }

  /** After every call, every key stands for the times that reached its window. */
  lemma {:induction false} KeysRepresentTouches(c: Config, calls: seq<Call>, outs: seq<Outcome>, n: nat, key: Key, window: nat, ttl: nat)
    requires ValidConfig(c) && Tracked(c, calls, outs, key) && n <= |calls| && KeyTiming(c, key, window, ttl)
    ensures Represents(Before(outs, n), key, window, ttl, Touches(calls, outs, key, n))
  {
    if n == 0 {
      NothingTouched(calls, outs, key, window, ttl);
    } else {
      KeysRepresentTouches(c, calls, outs, n - 1, key, window, ttl);
      if key in outs[n - 1].touched {
        TouchedGains(c, calls, outs, n - 1, key, window, ttl);
      } else {
        UntouchedStays(c, calls, outs, n - 1, key, window, ttl);
      }
    }
  }

  /** What a call that touched a key found in it: exactly the times that reached
      this window in (now - window, now]. */
  lemma ContentIsWindow(c: Config, calls: seq<Call>, outs: seq<Outcome>, n: nat, key: Key, window: nat, ttl: nat)
    requires ValidConfig(c) && Tracked(c, calls, outs, key) && n < |calls| && KeyTiming(c, key, window, ttl)
    requires key in outs[n].touched
    ensures key in outs[n].zsets
    ensures outs[n].zsets[key].members == InWindow(Touches(calls, outs, key, n + 1), window, calls[n].now)
  {
    KeysRepresentTouches(c, calls, outs, n, key, window, ttl);
    TrackedTouch(c, calls, outs, n, key, window, ttl);
    TouchRepresents(Before(outs, n), key, window, ttl, Touches(calls, outs, key, n), calls[n].now);
  }

  /** The 5m window has seen no request the 1m window has not, nor the 1m window
      one the 1s window has not: early returns only ever skip later windows. */
  lemma WindowsNest(c: Config, calls: seq<Call>, outs: seq<Outcome>, n: nat, ip: string, v: nat, u: nat)
    requires IsRun(c, calls, outs) && n <= |calls| && v <= u < 3
    ensures Touches(calls, outs, GlobalKey(ip, u), n) <= Touches(calls, outs, GlobalKey(ip, v), n)
  {
    forall i | 0 <= i < n && GlobalKey(ip, u) in outs[i].touched ensures GlobalKey(ip, v) in outs[i].touched {
      assert Answered(c, calls, outs, i);
      if calls[i].Request? {
        RequestEffect(c, Before(outs, i), calls[i]);
      } else {
        VerifyEffect(c, Before(outs, i), calls[i]);
      }
    }
  }

  /***** Admission bounds *****/

  /** The calls an admission bound counts: those in `who` made in (t - window, t]. */
  ghost function Recent(calls: seq<Call>, who: set<nat>, window: nat, t: int): set<nat> {
    set i | i in who && i < |calls| && t - window * TICKS < calls[i].now <= t
  }

  /**
   * The bound every limiter rests on. Take any calls that touched a key and
   * left at most `limit` members in it; then in every window of the key's
   * length at most `limit` distinct times among them occur, and at most `limit`
   * of the calls themselves if no two of those share a time.
   */
  lemma BucketBound(c: Config, calls: seq<Call>, outs: seq<Outcome>, key: Key, window: nat, ttl: nat, limit: nat, who: set<nat>, t: int)
    requires ValidConfig(c) && Tracked(c, calls, outs, key) && KeyTiming(c, key, window, ttl)
    requires forall i :: i in who ==> i < |calls| && Few(outs[i], key, limit)
    ensures |set i | i in Recent(calls, who, window, t) :: Member(calls[i].now)| <= limit
    ensures StrictClock(calls) ==> |Recent(calls, who, window, t)| <= limit
  {
    var recent := Recent(calls, who, window, t);
    var times := set i | i in recent :: Member(calls[i].now);
    TimesBound(c, calls, outs, key, window, ttl, limit, who, t);
    if StrictClock(calls) {
      var time := (i: nat) => if i < |calls| then Member(calls[i].now) else Member(0);
      IndicesAsTimes(recent, time);
      assert (set i | i in recent :: time(i)) == times;
    }
  }

  lemma TimesBound(c: Config, calls: seq<Call>, outs: seq<Outcome>, key: Key, window: nat, ttl: nat, limit: nat, who: set<nat>, t: int)
    requires ValidConfig(c) && Tracked(c, calls, outs, key) && KeyTiming(c, key, window, ttl)
    requires forall i :: i in who ==> i < |calls| && Few(outs[i], key, limit)
    ensures |set i | i in Recent(calls, who, window, t) :: Member(calls[i].now)| <= limit
  {
    var recent := Recent(calls, who, window, t);
    var times := set i | i in recent :: Member(calls[i].now);
    if times != {} {
      var last := GreatestExists(times);
      var j :| j in recent && Member(calls[j].now) == last;
      forall i | i in recent ensures calls[i].now <= calls[j].now {
        assert Member(calls[i].now) in times;
      }
      CountedAtLast(c, calls, outs, key, window, ttl, limit, who, t, j);
      SubsetSize(times, outs[j].zsets[key].members);
    }
  }

  /** The last of the counted calls counted all of them. */
  lemma CountedAtLast(c: Config, calls: seq<Call>, outs: seq<Outcome>, key: Key, window: nat, ttl: nat, limit: nat, who: set<nat>, t: int, j: nat)
    requires ValidConfig(c) && Tracked(c, calls, outs, key) && KeyTiming(c, key, window, ttl)
    requires forall i :: i in who ==> i < |calls| && Few(outs[i], key, limit)
    requires j in Recent(calls, who, window, t)
    requires forall i :: i in Recent(calls, who, window, t) ==> calls[i].now <= calls[j].now
    ensures key in outs[j].zsets
    ensures (set i | i in Recent(calls, who, window, t) :: Member(calls[i].now)) <= outs[j].zsets[key].members
  {
    ContentIsWindow(c, calls, outs, j, key, window, ttl);
    var touches := Touches(calls, outs, key, j + 1);
    forall i | i in Recent(calls, who, window, t) ensures Member(calls[i].now) in touches {
      assert key in outs[i].touched && key in outs[j].touched;
      if i > j {
        assert calls[i].now == calls[j].now;
      }
    }
  }

  /** The requests of one address that were let through by `check_rate_limit`. */
  ghost function Admitted(calls: seq<Call>, outs: seq<Outcome>, ip: string): set<nat>
    requires |calls| == |outs|
  {
    set i | 0 <= i < |calls| && calls[i].Request? && calls[i].ip == ip && outs[i].result.Within?
  }

  lemma WindowBound(c: Config, calls: seq<Call>, outs: seq<Outcome>, ip: string, w: nat, t: int)
    requires ValidConfig(c) && IsRun(c, calls, outs) && w < 3
    ensures |set i | i in Recent(calls, Admitted(calls, outs, ip), WindowSeconds(w), t) :: Member(calls[i].now)| <= Threshold(c, w)
    ensures StrictClock(calls) ==> |Recent(calls, Admitted(calls, outs, ip), WindowSeconds(w), t)| <= Threshold(c, w)
  {
    var who := Admitted(calls, outs, ip);
    var key := GlobalKey(ip, w);
    RunIsTracked(c, calls, outs, key);
    forall i | i in who ensures Few(outs[i], key, Threshold(c, w)) {
      assert Answered(c, calls, outs, i);
      RequestEffect(c, Before(outs, i), calls[i]);
    }
    BucketBound(c, calls, outs, key, WindowSeconds(w), WindowTtl(w), Threshold(c, w), who, t);
  }

  /** How many requests of the address are admitted in (t - window, t], counting
      those at one and the same time once. */
  ghost function AdmittedTimes(calls: seq<Call>, outs: seq<Outcome>, ip: string, window: nat, t: int): nat
    requires |calls| == |outs|
  {
    |set i | i in Recent(calls, Admitted(calls, outs, ip), window, t) :: Member(calls[i].now)|
  }

  /**
   * Admission. In every run, for every address and every time t, at most the burst
   * limit of requests are let through in the second up to t, at most the
   * per-minute limit in the minute, and at most the five-minute limit in the five
   * minutes; early returns leave later windows unrecorded and change nothing.
   */
  lemma AdmissionBound(c: Config, calls: seq<Call>, outs: seq<Outcome>, ip: string, t: int)
    requires ValidConfig(c) && IsRun(c, calls, outs)
    ensures AdmittedTimes(calls, outs, ip, 1, t) <= c.burst
    ensures AdmittedTimes(calls, outs, ip, 60, t) <= c.perMinute
    ensures AdmittedTimes(calls, outs, ip, 300, t) <= c.perFiveMinutes
    ensures StrictClock(calls) ==>
              && |Recent(calls, Admitted(calls, outs, ip), 1, t)| <= c.burst
              && |Recent(calls, Admitted(calls, outs, ip), 60, t)| <= c.perMinute
              && |Recent(calls, Admitted(calls, outs, ip), 300, t)| <= c.perFiveMinutes
  {
    WindowBound(c, calls, outs, ip, 0, t);
    WindowBound(c, calls, outs, ip, 1, t);
    WindowBound(c, calls, outs, ip, 2, t);
  }

  /** The requests of one address resolved to one path entry and not refused for
      it; later windows may still have refused them. */
  ghost function PassedPath(c: Config, calls: seq<Call>, outs: seq<Outcome>, ip: string, p: PathLimit): set<nat>
    requires |calls| == |outs|
  {
    set i | && 0 <= i < |calls| && calls[i].Request? && calls[i].ip == ip
            && Resolved(c.paths, calls[i].path, Upper(calls[i].verb)) == Some(p)
            && !(outs[i].result.Exceeded? && outs[i].result.breach.Path?)
  }

  lemma PathAdmissionBound(c: Config, calls: seq<Call>, outs: seq<Outcome>, ip: string, p: PathLimit, t: int)
    requires ValidConfig(c) && IsRun(c, calls, outs) && p in c.paths
    ensures |set i | i in Recent(calls, PassedPath(c, calls, outs, ip, p), p.window, t) :: Member(calls[i].now)| <= p.maxRequests
    ensures StrictClock(calls) ==> |Recent(calls, PassedPath(c, calls, outs, ip, p), p.window, t)| <= p.maxRequests
  {
    var who := PassedPath(c, calls, outs, ip, p);
    var key := PathKey(ip, p.prefix);
    assert KeyTiming(c, key, p.window, p.window + 10);
    RunIsTracked(c, calls, outs, key);
    forall i | i in who ensures Few(outs[i], key, p.maxRequests) {
      assert Answered(c, calls, outs, i);
      PathPassed(c, Before(outs, i), calls[i], p);
    }
    BucketBound(c, calls, outs, key, p.window, p.window + 10, p.maxRequests, who, t);
  }

  ghost function PassedVerify(calls: seq<Call>, outs: seq<Outcome>, ip: string): set<nat>
    requires |calls| == |outs|
  {
    set i | 0 <= i < |calls| && calls[i].VerifyPost? && calls[i].ip == ip && outs[i].result.Within?
  }

  lemma VerifyAdmissionBound(c: Config, calls: seq<Call>, outs: seq<Outcome>, ip: string, t: int)
    requires ValidConfig(c) && IsRun(c, calls, outs)
    ensures |set i | i in Recent(calls, PassedVerify(calls, outs, ip), c.verifyWindow, t) :: Member(calls[i].now)| <= c.verifyMax
    ensures StrictClock(calls) ==> |Recent(calls, PassedVerify(calls, outs, ip), c.verifyWindow, t)| <= c.verifyMax
  {
    var who := PassedVerify(calls, outs, ip);
    var key := VerifyKey(ip);
    RunIsTracked(c, calls, outs, key);
    forall i | i in who ensures Few(outs[i], key, c.verifyMax) {
      assert Answered(c, calls, outs, i);
      VerifyEffect(c, Before(outs, i), calls[i]);
    }
    BucketBound(c, calls, outs, key, c.verifyWindow, c.verifyWindow + 10, c.verifyMax, who, t);
  }

  /** The strict clock is needed: two solves posted at one and the same time are
      one member, and a limit of one lets both through. */
  lemma SameTimeCollapses(ip: string)
    ensures var c := Config(1, 1, 1, [], 1, 300);
            var call := VerifyPost(ip, 0);
            var first := Check(c, map[], call);
            var second := Check(c, first.zsets, call);
            && IsRun(c, [call, call], [first, second])
            && first.result == Within && second.result == Within
  {
    var c := Config(1, 1, 1, [], 1, 300);
    var call := VerifyPost(ip, 0);
    var first := Check(c, map[], call);
    var key := VerifyKey(ip);
    assert first.zsets[key].members == {Member(0)};
    var second := Check(c, first.zsets, call);
    assert second.zsets[key].members == {Member(0)};
  }

  /** The window a refusal names. */
  ghost predicate RefusedFor(c: Config, call: Call, breach: Breach, key: Key, window: nat) {
    match breach
    case Global(w) =>
      && call.Request? && w < 3 && key == GlobalKey(call.ip, w)
      && window == (if w == 0 then 1 else if w == 1 then 60 else 300)
    case Path => call.Request? && key.PathKey? && key.ip == call.ip && exists p :: p in c.paths && p.prefix == key.prefix && p.window == window
    case Verify => call.VerifyPost? && key == VerifyKey(call.ip) && window == c.verifyWindow
  }

  lemma {:induction false} WindowsRefuse(c: Config, zs: ZSets, ip: string, now: int, w: nat)
    requires w <= 3 && CheckWindows(c, zs, ip, now, w).result.Exceeded?
    ensures var o := CheckWindows(c, zs, ip, now, w);
            && o.result.breach.Global? && w <= o.result.breach.window < 3
            && var v := o.result.breach.window;
               var key := GlobalKey(ip, v);
               && key in o.touched && key in o.zsets
               && o.result.retryAfter == RetryAfter(Oldest(o.zsets[key].members), WindowSeconds(v), now)
    decreases 3 - w
  {
    var first := TouchKey(zs, GlobalKey(ip, w), WindowSeconds(w), WindowTtl(w), now, Threshold(c, w), Global(w));
    if first.result.Within? {
      WindowsRefuse(c, first.zsets, ip, now, w + 1);
    }
  }

  lemma RefusalNamesItsKey(c: Config, zs: ZSets, call: Call) returns (key: Key, window: nat)
    requires Check(c, zs, call).result.Exceeded?
    ensures var o := Check(c, zs, call);
            && RefusedFor(c, call, o.result.breach, key, window)
            && key in o.touched && key in o.zsets
            && o.result.retryAfter == RetryAfter(Oldest(o.zsets[key].members), window, call.now)
  {
    match call {
      case VerifyPost(ip, _) =>
        key, window := VerifyKey(ip), c.verifyWindow;
      case Request(ip, now, path, verb) =>
        var first := CheckPath(c, zs, ip, path, verb, now);
        if first.result.Exceeded? {
          var p := Resolved(c.paths, path, Upper(verb)).value;
          key, window := PathKey(ip, p.prefix), p.window;
        } else {
          WindowsRefuse(c, first.zsets, ip, now, 0);
          var v := CheckWindows(c, first.zsets, ip, now, 0).result.breach.window;
          key, window := GlobalKey(ip, v), WindowSeconds(v);
        }
    }
  }

  /** In every run, a refusal's advice lies between one second and the length of
      the window refused for, and a second after it the oldest event counted
      against the request has left that window. */
  lemma AdviceIsInRange(c: Config, calls: seq<Call>, outs: seq<Outcome>, n: nat) returns (key: Key, window: nat)
    requires ValidConfig(c) && IsRun(c, calls, outs) && n < |calls| && outs[n].result.Exceeded?
    ensures RefusedFor(c, calls[n], outs[n].result.breach, key, window)
    ensures 1 <= outs[n].result.retryAfter <= window
    ensures key in outs[n].zsets && Oldest(outs[n].zsets[key].members).Some?
    ensures Oldest(outs[n].zsets[key].members).value.score
         <= calls[n].now + (outs[n].result.retryAfter + 1) * TICKS - window * TICKS
    ensures outs[n].result.retryAfter == 1
            || outs[n].result.retryAfter * TICKS <= Oldest(outs[n].zsets[key].members).value.score + window * TICKS - calls[n].now
  {
    assert Answered(c, calls, outs, n);
    key, window := RefusalNamesItsKey(c, Before(outs, n), calls[n]);
    RunIsTracked(c, calls, outs, key);
    assert EffectAt(c, calls, outs, key, n);
    var w, ttl :| KeyTiming(c, key, w, ttl);
    RefusedTiming(c, calls[n], outs[n].result.breach, key, window, w, ttl);
    ContentIsWindow(c, calls, outs, n, key, w, ttl);
    assert Member(calls[n].now) in Touches(calls, outs, key, n + 1);
    RetryAfterBounds(outs[n].zsets[key].members, window, calls[n].now);
  }

  lemma RefusedTiming(c: Config, call: Call, breach: Breach, key: Key, window: nat, w: nat, ttl: nat)
    requires ValidConfig(c) && RefusedFor(c, call, breach, key, window) && KeyTiming(c, key, w, ttl)
    ensures w == window && 0 < window
  {
    TimingIsUnique(c, key, w, ttl, w, ttl);
    if breach.Path? {
      var p :| p in c.paths && p.prefix == key.prefix && p.window == window;
      assert KeyTiming(c, key, p.window, p.window + 10);
      TimingIsUnique(c, key, w, ttl, p.window, p.window + 10);
    }
  }

  /***** Retrying *****/

  /** The verdict of one retry with nothing in between: it passes this key if and
      only if fewer than the limit of the events counted at the breach, the
      refused request among them, are still in the window. */
  lemma RetryVerdict(zs: ZSets, key: Key, window: nat, ttl: nat, now: int, later: int, limit: nat, breach: Breach)
    requires 0 < window <= ttl && 0 <= now < later
    requires forall m :: m in LiveMembers(zs, key, now) ==> 0 <= m.score <= now
    ensures var first := TouchKey(zs, key, window, ttl, now, limit, breach);
            var retry := TouchKey(first.zsets, key, window, ttl, later, limit, breach);
            retry.result.Within? <==> |InWindow(first.zsets[key].members, window, later)| < limit
  {
    RetryCount(zs, key, window, ttl, now, later);
  }

  ghost predicate Undisturbed(outs: seq<Outcome>, key: Key, n: nat, m: nat)
    requires n < m <= |outs|
  {
    forall k | n < k < m :: key !in outs[k].touched
  }

  /** In every run: what a call finds under a key last touched by call n. */
  lemma RetryMeets(c: Config, calls: seq<Call>, outs: seq<Outcome>, key: Key, window: nat, ttl: nat, n: nat, m: nat)
    requires ValidConfig(c) && Tracked(c, calls, outs, key) && KeyTiming(c, key, window, ttl)
    requires n < m < |calls| && calls[n].now < calls[m].now
    requires key in outs[n].touched && key in outs[m].touched && Undisturbed(outs, key, n, m)
    ensures key in outs[m].zsets
    ensures |outs[m].zsets[key].members| == |InWindow(Touches(calls, outs, key, n + 1), window, calls[m].now)| + 1
  {
    ContentIsWindow(c, calls, outs, m, key, window, ttl);
    TrackedTouch(c, calls, outs, m, key, window, ttl);
    SameTouches(calls, outs, key, n, m);
    TouchesArePast(calls, outs, key, n);
    OneMoreInWindow(Touches(calls, outs, key, n + 1), window, calls[m].now);
  }

  lemma TouchesArePast(calls: seq<Call>, outs: seq<Outcome>, key: Key, n: nat)
    requires Clock(calls) && n < |calls| == |outs|
    ensures forall h :: h in Touches(calls, outs, key, n + 1) ==> h.score <= calls[n].now
  {
  }

  lemma {:induction false} SameTouches(calls: seq<Call>, outs: seq<Outcome>, key: Key, n: nat, m: nat)
    requires |calls| == |outs| && n < m <= |calls| && Undisturbed(outs, key, n, m)
    ensures Touches(calls, outs, key, m) == Touches(calls, outs, key, n + 1)
  {
    if n + 1 < m {
      SameTouches(calls, outs, key, n, m - 1);
      assert key !in outs[m - 1].touched;
    }
  }

  /**
   * Retrying a solve, in every run. A post that is the address's next after post
   * n is let through if and only if fewer than the limit of its earlier posts, n
   * itself and every refused one included, are still in the window; so what a
   * refused client must wait for is not its oldest post leaving but enough of
   * them.
   */
  lemma RetryPassesIff(c: Config, calls: seq<Call>, outs: seq<Outcome>, ip: string, n: nat, m: nat)
    requires ValidConfig(c) && IsRun(c, calls, outs) && n < m < |calls| && calls[n].now < calls[m].now
    requires calls[n].VerifyPost? && calls[n].ip == ip && calls[m].VerifyPost? && calls[m].ip == ip
    requires forall k | n < k < m :: !(calls[k].VerifyPost? && calls[k].ip == ip)
    ensures outs[m].result.Within?
            <==> |InWindow(Touches(calls, outs, VerifyKey(ip), n + 1), c.verifyWindow, calls[m].now)| < c.verifyMax
  {
    var key := VerifyKey(ip);
    RunIsTracked(c, calls, outs, key);
    assert KeyTiming(c, key, c.verifyWindow, c.verifyWindow + 10);
    assert Answered(c, calls, outs, n) && Answered(c, calls, outs, m);
    forall k | n < k < m ensures key !in outs[k].touched {
      assert Answered(c, calls, outs, k);
      OtherCallsElsewhere(c, Before(outs, k), calls[k], ip);
    }
    RetryMeets(c, calls, outs, key, c.verifyWindow, c.verifyWindow + 10, n, m);
  }

  lemma OtherCallsElsewhere(c: Config, zs: ZSets, call: Call, ip: string)
    requires !(call.VerifyPost? && call.ip == ip)
    ensures VerifyKey(ip) !in Check(c, zs, call).touched
  {
    if call.Request? {
      var first := CheckPath(c, zs, call.ip, call.path, call.verb, call.now);
      PathEffect(c, zs, call.ip, call.path, call.verb, call.now);
      WindowTouches(c, first.zsets, call.ip, call.now, 0);
    }
  }

  /** A refusal by a window: that window was touched and is over its threshold. */
  lemma {:induction false} WindowsOver(c: Config, zs: ZSets, ip: string, now: int, w: nat)
    requires w <= 3 && CheckWindows(c, zs, ip, now, w).result.Exceeded?
    ensures var o := CheckWindows(c, zs, ip, now, w);
            && o.result.breach.Global? && w <= o.result.breach.window < 3
            && var key := GlobalKey(ip, o.result.breach.window);
               key in o.touched && key in o.zsets && |o.zsets[key].members| > Threshold(c, o.result.breach.window)
    decreases 3 - w
  {
    var first := FirstTouch(c, zs, ip, now, w);
    if first.result.Within? {
      WindowsOver(c, first.zsets, ip, now, w + 1);
    }
  }

  /** The same for a whole request, path limit included. */
  ghost predicate OverFor(c: Config, call: Call, o: Outcome)
    requires call.Request? && o.result.Exceeded?
  {
    match o.result.breach
    case Global(v) =>
      v < 3 && GlobalKey(call.ip, v) in o.touched && GlobalKey(call.ip, v) in o.zsets
      && |o.zsets[GlobalKey(call.ip, v)].members| > Threshold(c, v)
    case Path =>
      var r := Resolved(c.paths, call.path, Upper(call.verb));
      && r.Some?
      && var key := PathKey(call.ip, r.value.prefix);
         key in o.touched && key in o.zsets && |o.zsets[key].members| > r.value.maxRequests
    case Verify => false
  }

  lemma RequestOver(c: Config, zs: ZSets, call: Call)
    requires call.Request? && Check(c, zs, call).result.Exceeded?
    ensures OverFor(c, call, Check(c, zs, call))
  {
    var first := CheckPath(c, zs, call.ip, call.path, call.verb, call.now);
    if first.result.Within? {
      WindowsOver(c, first.zsets, call.ip, call.now, 0);
    }
  }

  /** How many of a key's touches, call m's own included, are in the window at m. */
  ghost function CountAt(calls: seq<Call>, outs: seq<Outcome>, key: Key, window: nat, m: nat): nat
    requires m < |calls| == |outs|
  {
    |InWindow(Touches(calls, outs, key, m + 1), window, calls[m].now)|
  }

  /** The keys a request is measured against all hold at most their limits. */
  ghost predicate PathFits(c: Config, calls: seq<Call>, outs: seq<Outcome>, m: nat)
    requires m < |calls| == |outs| && calls[m].Request?
  {
    var r := Resolved(c.paths, calls[m].path, Upper(calls[m].verb));
    r.Some? ==> CountAt(calls, outs, PathKey(calls[m].ip, r.value.prefix), r.value.window, m) <= r.value.maxRequests
  }

  ghost predicate WindowFits(c: Config, calls: seq<Call>, outs: seq<Outcome>, m: nat, v: nat)
    requires m < |calls| == |outs| && v < 3
  {
    CountAt(calls, outs, GlobalKey(calls[m].ip, v), WindowSeconds(v), m) <= Threshold(c, v)
  }

  lemma TouchedCount(c: Config, calls: seq<Call>, outs: seq<Outcome>, key: Key, window: nat, ttl: nat, m: nat)
    requires ValidConfig(c) && IsRun(c, calls, outs) && m < |calls| && KeyTiming(c, key, window, ttl) && key in outs[m].touched
    ensures key in outs[m].zsets && |outs[m].zsets[key].members| == CountAt(calls, outs, key, window, m)
  {
    RunIsTracked(c, calls, outs, key);
    ContentIsWindow(c, calls, outs, m, key, window, ttl);
  }

  lemma GlobalCount(c: Config, calls: seq<Call>, outs: seq<Outcome>, m: nat, v: nat)
    requires ValidConfig(c) && IsRun(c, calls, outs) && m < |calls| && v < 3 && GlobalKey(calls[m].ip, v) in outs[m].touched
    ensures var key := GlobalKey(calls[m].ip, v);
            key in outs[m].zsets && |outs[m].zsets[key].members| == CountAt(calls, outs, key, WindowSeconds(v), m)
  {
    assert KeyTiming(c, GlobalKey(calls[m].ip, v), WindowSeconds(v), WindowTtl(v));
    TouchedCount(c, calls, outs, GlobalKey(calls[m].ip, v), WindowSeconds(v), WindowTtl(v), m);
  }

  lemma PathCount(c: Config, calls: seq<Call>, outs: seq<Outcome>, m: nat, r: PathLimit)
    requires ValidConfig(c) && IsRun(c, calls, outs) && m < |calls| && calls[m].Request?
    requires Resolved(c.paths, calls[m].path, Upper(calls[m].verb)) == Some(r) && PathKey(calls[m].ip, r.prefix) in outs[m].touched
    ensures var key := PathKey(calls[m].ip, r.prefix);
            key in outs[m].zsets && |outs[m].zsets[key].members| == CountAt(calls, outs, key, r.window, m)
  {
    var key := PathKey(calls[m].ip, r.prefix);
    assert KeyTiming(c, key, r.window, r.window + 10);
    TouchedCount(c, calls, outs, key, r.window, r.window + 10, m);
  }

  lemma WithinFits(c: Config, calls: seq<Call>, outs: seq<Outcome>, m: nat)
    requires ValidConfig(c) && IsRun(c, calls, outs) && m < |calls| && calls[m].Request? && outs[m].result.Within?
    ensures PathFits(c, calls, outs, m) && forall v: nat | v < 3 :: WindowFits(c, calls, outs, m, v)
  {
    var zs := Before(outs, m);
    assert Answered(c, calls, outs, m);
    RequestEffect(c, zs, calls[m]);
    forall v: nat | v < 3 ensures WindowFits(c, calls, outs, m, v) {
      assert Few(outs[m], GlobalKey(calls[m].ip, v), Threshold(c, v));
      GlobalCount(c, calls, outs, m, v);
    }
    var r := Resolved(c.paths, calls[m].path, Upper(calls[m].verb));
    if r.Some? {
      PathPassed(c, zs, calls[m], r.value);
      PathCount(c, calls, outs, m, r.value);
    }
  }

  lemma ExceededOverflows(c: Config, calls: seq<Call>, outs: seq<Outcome>, m: nat)
    requires ValidConfig(c) && IsRun(c, calls, outs) && m < |calls| && calls[m].Request? && outs[m].result.Exceeded?
    ensures match outs[m].result.breach
            case Global(v) => v < 3 && !WindowFits(c, calls, outs, m, v)
            case _ => !PathFits(c, calls, outs, m)
  {
    assert Answered(c, calls, outs, m);
    RequestOver(c, Before(outs, m), calls[m]);
    match outs[m].result.breach
    case Global(v) => GlobalCount(c, calls, outs, m, v);
    case Path => PathCount(c, calls, outs, m, Resolved(c.paths, calls[m].path, Upper(calls[m].verb)).value);
  }

  lemma FitsIff(c: Config, calls: seq<Call>, outs: seq<Outcome>, m: nat)
    requires ValidConfig(c) && IsRun(c, calls, outs) && m < |calls| && calls[m].Request?
    ensures outs[m].result.Within?
            <==> PathFits(c, calls, outs, m) && forall v: nat | v < 3 :: WindowFits(c, calls, outs, m, v)
  {
    if outs[m].result.Within? {
      WithinFits(c, calls, outs, m);
    } else {
      ExceededOverflows(c, calls, outs, m);
    }
  }

  /**
   * When a request passes, in every run: if and only if the path entry it resolves
   * to, if any, has at most its limit of touches in its window, and at most the
   * burst limit fall in the last second, the per-minute limit in the last minute
   * and the five-minute limit in the last five, this request's own among them.
   * Refused requests count on every key they reached; so this is what a retry
   * must wait for.
   */
  lemma RequestPassesIff(c: Config, calls: seq<Call>, outs: seq<Outcome>, m: nat)
    requires ValidConfig(c) && IsRun(c, calls, outs) && m < |calls| && calls[m].Request?
    ensures outs[m].result.Within?
            <==> && PathFits(c, calls, outs, m)
                 && CountAt(calls, outs, GlobalKey(calls[m].ip, 0), 1, m) <= c.burst
                 && CountAt(calls, outs, GlobalKey(calls[m].ip, 1), 60, m) <= c.perMinute
                 && CountAt(calls, outs, GlobalKey(calls[m].ip, 2), 300, m) <= c.perFiveMinutes
  {
    FitsIff(c, calls, outs, m);
    if PathFits(c, calls, outs, m) && WindowFits(c, calls, outs, m, 0) && WindowFits(c, calls, outs, m, 1) && WindowFits(c, calls, outs, m, 2) {
      forall v: nat | v < 3 ensures WindowFits(c, calls, outs, m, v) {
        assert v == 0 || v == 1 || v == 2;
      }
    }
  }

  /** Which windows a refused request reached. */
  lemma {:induction false} WindowsUpTo(c: Config, zs: ZSets, ip: string, now: int, w: nat, u: nat)
    requires w <= u < 3 && CheckWindows(c, zs, ip, now, w).result.Exceeded?
    ensures var o := CheckWindows(c, zs, ip, now, w);
            o.result.breach.Global? && (GlobalKey(ip, u) in o.touched <==> u <= o.result.breach.window)
    decreases 3 - w
  {
    var first := FirstTouch(c, zs, ip, now, w);
    if first.result.Exceeded? {
      FirstRefuses(c, zs, ip, now, w);
    } else {
      WindowsOver(c, first.zsets, ip, now, w + 1);
      if w < u {
        LaterTouched(c, zs, ip, now, w, u);
        WindowsUpTo(c, first.zsets, ip, now, w + 1, u);
      }
    }
  }

  lemma FirstRefuses(c: Config, zs: ZSets, ip: string, now: int, w: nat)
    requires w < 3 && FirstTouch(c, zs, ip, now, w).result.Exceeded?
    ensures CheckWindows(c, zs, ip, now, w) == FirstTouch(c, zs, ip, now, w)
    ensures FirstTouch(c, zs, ip, now, w).result.breach == Global(w) && FirstTouch(c, zs, ip, now, w).touched == {GlobalKey(ip, w)}
  {
  }

  /** And those before the one that refused had room. */
  lemma {:induction false} WindowsHadRoom(c: Config, zs: ZSets, ip: string, now: int, w: nat, u: nat)
    requires w <= u < 3 && CheckWindows(c, zs, ip, now, w).result.Exceeded?
    requires CheckWindows(c, zs, ip, now, w).result.breach.Global? && u < CheckWindows(c, zs, ip, now, w).result.breach.window
    ensures Few(CheckWindows(c, zs, ip, now, w), GlobalKey(ip, u), Threshold(c, u))
    decreases 3 - w
  {
    var first := FirstTouch(c, zs, ip, now, w);
    if first.result.Within? {
      WindowsOver(c, first.zsets, ip, now, w + 1);
      if w < u {
        WindowsHadRoom(c, first.zsets, ip, now, w + 1, u);
      } else {
        FirstHadRoom(c, zs, ip, now, w);
      }
    }
  }

  lemma FirstHadRoom(c: Config, zs: ZSets, ip: string, now: int, w: nat)
    requires w < 3 && FirstTouch(c, zs, ip, now, w).result.Within?
    ensures Few(CheckWindows(c, zs, ip, now, w), GlobalKey(ip, w), Threshold(c, w))
  {
    var first := FirstTouch(c, zs, ip, now, w);
    var rest := CheckWindows(c, first.zsets, ip, now, w + 1);
    assert GlobalKey(ip, w) !in rest.touched by {
      WindowTouches(c, first.zsets, ip, now, w + 1);
    }
    WindowEffect(c, first.zsets, ip, now, w + 1, GlobalKey(ip, w));
  }

  /** The windows a request records itself in, said on its answer alone. */
  predicate Reaches(r: Result, v: nat) {
    match r
    case Within => true
    case Exceeded(Global(w), _) => v <= w
    case Exceeded(_, _) => false
  }

  /**
   * The order of the checks, in every run. A request resolved to a path entry is
   * always recorded there; refused for the path it is recorded nowhere else;
   * refused by a window it is recorded in that one and the shorter ones, all of
   * which had room; passed, in all three. It is recorded for no other address.
   */
  lemma ChecksInOrder(c: Config, calls: seq<Call>, outs: seq<Outcome>, m: nat)
    requires IsRun(c, calls, outs) && m < |calls| && calls[m].Request?
    ensures forall v: nat | v < 3 :: GlobalKey(calls[m].ip, v) in outs[m].touched <==> Reaches(outs[m].result, v)
    ensures forall prefix :: PathKey(calls[m].ip, prefix) in outs[m].touched
              <==> Resolved(c.paths, calls[m].path, Upper(calls[m].verb)).Some?
                   && Resolved(c.paths, calls[m].path, Upper(calls[m].verb)).value.prefix == prefix
    ensures forall key :: key in outs[m].touched ==> key.ip == calls[m].ip
    ensures outs[m].result.Exceeded? && outs[m].result.breach.Global? ==>
              forall u: nat | u < outs[m].result.breach.window < 3 :: Few(outs[m], GlobalKey(calls[m].ip, u), Threshold(c, u))
  {
    assert Answered(c, calls, outs, m);
    var call, zs := calls[m], Before(outs, m);
    RequestEffect(c, zs, call);
    PathEffect(c, zs, call.ip, call.path, call.verb, call.now);
    var first := CheckPath(c, zs, call.ip, call.path, call.verb, call.now);
    PathTouchesOnly(c, zs, call);
    if first.result.Within? {
      var rest := CheckWindows(c, first.zsets, call.ip, call.now, 0);
      WindowTouches(c, first.zsets, call.ip, call.now, 0);
      if rest.result.Exceeded? {
        WindowsOver(c, first.zsets, call.ip, call.now, 0);
        forall v: nat | v < 3 ensures GlobalKey(call.ip, v) in outs[m].touched <==> Reaches(outs[m].result, v) {
          WindowsUpTo(c, first.zsets, call.ip, call.now, 0, v);
        }
        forall u: nat | u < rest.result.breach.window < 3 ensures Few(outs[m], GlobalKey(call.ip, u), Threshold(c, u)) {
          WindowsHadRoom(c, first.zsets, call.ip, call.now, 0, u);
        }
      } else {
        forall v: nat | v < 3 ensures GlobalKey(call.ip, v) in outs[m].touched {
          assert Few(outs[m], GlobalKey(call.ip, v), Threshold(c, v));
        }
      }
    }
  }

  lemma PathTouchesOnly(c: Config, zs: ZSets, call: Call)
    requires call.Request?
    ensures var o, r := CheckPath(c, zs, call.ip, call.path, call.verb, call.now), Resolved(c.paths, call.path, Upper(call.verb));
            && o.touched == (if r.Some? then {PathKey(call.ip, r.value.prefix)} else {})
            && (o.result.Exceeded? ==> o.result.breach == Path)
  {
  }

  /***** Resolution on the settings *****/

  /** The same word, upper and lower case alike. */
  predicate SameLetter(a: char, b: char) {
    a == b || ('a' <= a <= 'z' && b as int == a as int - 32) || ('a' <= b <= 'z' && a as int == b as int - 32)
  }

  predicate SameWord(a: string, b: string) {
    |a| == |b| && forall i :: 0 <= i < |a| ==> SameLetter(a[i], b[i])
  }

  lemma UpperIsCaseless(a: string, b: string)
    ensures Upper(a) == Upper(b) <==> SameWord(a, b)
  {
    if SameWord(a, b) {
      forall i | 0 <= i < |a| ensures Upper(a)[i] == Upper(b)[i] {
        assert SameLetter(a[i], b[i]);
      }
      assert Upper(a) == Upper(b);
    }
    if Upper(a) == Upper(b) {
      assert |Upper(a)| == |a| && |Upper(b)| == |b|;
      forall i | 0 <= i < |a| ensures SameLetter(a[i], b[i]) {
        assert Upper(a)[i] == Upper(b)[i];
      }
    }
  }

  /** The entry's prefix begins the path, and its scope, if it has one, lists the
      request's method in some spelling. */
  ghost predicate Fits(p: PathLimit, path: string, verb: string) {
    && |p.prefix| <= |path| && path[..|p.prefix|] == p.prefix
    && (p.methods.None? || (verb != "" && exists m :: m in p.methods.value && SameWord(m, verb)))
  }

  lemma FitsIs(p: PathLimit, path: string, verb: string)
    ensures Fits(p, path, verb) <==> StartsWith(path, p.prefix) && Applies(p, Upper(verb))
  {
    assert Upper(verb) == "" <==> verb == "" by {
      assert |Upper(verb)| == |verb|;
    }
    if p.methods.Some? {
      forall m | m in p.methods.value ensures Upper(m) == Upper(verb) <==> SameWord(m, verb) {
        UpperIsCaseless(m, verb);
      }
    }
  }

  /** The entry a request is limited by, for every setting, path and method: one
      whose prefix begins the path and whose scope covers the method, the longest
      such; and none exactly when there is none, or no path. */
  lemma ResolvedIsLongest(paths: seq<PathLimit>, path: string, verb: string)
    ensures var r := Resolved(paths, path, Upper(verb));
            match r
            case None => path == "" || forall p :: p in paths ==> !Fits(p, path, verb)
            case Some(q) =>
              path != "" && q in paths && Fits(q, path, verb)
              && forall p :: p in paths && Fits(p, path, verb) ==> |p.prefix| <= |q.prefix|
  {
    forall p ensures Fits(p, path, verb) <==> StartsWith(path, p.prefix) && Applies(p, Upper(verb)) {
      FitsIs(p, path, verb);
    }
  }

  /**
   * The advice is not enough. With one post a minute allowed: a post at 0 passes,
   * one at 30 is refused and told to wait 30 seconds, and the retry that waits
   * them is refused again, because the refused post counted.
   */
  lemma RetryAfterCanFail(ip: string) returns (calls: seq<Call>, outs: seq<Outcome>)
    ensures ValidConfig(OnePostAMinute()) && IsRun(OnePostAMinute(), calls, outs) && |calls| == 3
    ensures forall i :: 0 <= i < 3 ==> calls[i].VerifyPost? && calls[i].ip == ip
    ensures outs[0].result.Within? && outs[1].result == Exceeded(Verify, 30) && outs[2].result.Exceeded?
    ensures calls[2].now == calls[1].now + 30 * TICKS
  {
    calls := [VerifyPost(ip, 0), VerifyPost(ip, 30 * TICKS), VerifyPost(ip, 60 * TICKS)];
    outs := RunExists(OnePostAMinute(), calls);
    ThreePosts(ip, calls, outs);
  }

  function OnePostAMinute(): Config { Config(1, 1, 1, [], 1, 60) }

  lemma ThreePosts(ip: string, calls: seq<Call>, outs: seq<Outcome>)
    requires calls == [VerifyPost(ip, 0), VerifyPost(ip, 30 * TICKS), VerifyPost(ip, 60 * TICKS)] && |outs| == 3
    requires forall i :: 0 <= i < 3 ==> Answered(OnePostAMinute(), calls, outs, i)
    ensures outs[0].result.Within? && outs[1].result == Exceeded(Verify, 30) && outs[2].result.Exceeded?
  {
    PostsStore(ip, calls, outs);
    ThreeTouches(VerifyKey(ip));
    PostAnswered(OnePostAMinute(), calls, outs, ip, 0);
    PostAnswered(OnePostAMinute(), calls, outs, ip, 1);
    PostAnswered(OnePostAMinute(), calls, outs, ip, 2);
  }

  lemma PostsStore(ip: string, calls: seq<Call>, outs: seq<Outcome>)
    requires calls == [VerifyPost(ip, 0), VerifyPost(ip, 30 * TICKS), VerifyPost(ip, 60 * TICKS)] && |outs| == 3
    requires forall i :: 0 <= i < 3 ==> Answered(OnePostAMinute(), calls, outs, i)
    ensures var key := VerifyKey(ip);
            var z0 := Touched(map[], key, 60, 70, 0);
            outs[0].zsets == map[key := z0] && outs[1].zsets == map[key := Touched(map[key := z0], key, 60, 70, 30 * TICKS)]
  {
    PostAnswered(OnePostAMinute(), calls, outs, ip, 0);
    PostAnswered(OnePostAMinute(), calls, outs, ip, 1);
  }

  lemma PostAnswered(c: Config, calls: seq<Call>, outs: seq<Outcome>, ip: string, i: nat)
    requires i < |calls| == |outs| && Answered(c, calls, outs, i) && calls[i].VerifyPost? && calls[i].ip == ip
    ensures var zs, key, now := Before(outs, i), VerifyKey(ip), calls[i].now;
            var z := Touched(zs, key, c.verifyWindow, c.verifyWindow + 10, now);
            && outs[i].zsets == zs[key := z]
            && outs[i].result == if |z.members| > c.verifyMax then Exceeded(Verify, RetryAfter(Oldest(z.members), c.verifyWindow, now)) else Within
  {
  }

  /** Every sequence of calls is answered somehow. */
  lemma RunExists(c: Config, calls: seq<Call>) returns (outs: seq<Outcome>)
    requires Clock(calls)
    ensures IsRun(c, calls, outs)
  {
    ghost var check := (zs, call) => Check(c, zs, call);
    outs := Replies(check, calls);
    forall i | 0 <= i < |calls| ensures Answered(c, calls, outs, i) {
      assert outs[i] == check(Before(outs, i), calls[i]);
    }
  }

  lemma {:induction false} Replies(check: (ZSets, Call) -> Outcome, calls: seq<Call>) returns (outs: seq<Outcome>)
    ensures |outs| == |calls|
    ensures forall i :: 0 <= i < |calls| ==> outs[i] == check(Before(outs, i), calls[i])
  {
    outs := [];
    if calls != [] {
      var n := |calls| - 1;
      var before := Replies(check, calls[..n]);
      outs := before + [check(Before(before, n), calls[n])];
      forall i | 0 <= i < |calls| ensures outs[i] == check(Before(outs, i), calls[i]) {
        assert Before(outs, i) == Before(before, i);
      }
    }
  }

  /***** The same for ordinary requests *****/

  function OneRequestAMinute(): Config { Config(10, 1, 10, [], 1, 300) }

  /** No key can hold more than the calls made so far. */
  lemma CountIsSmall(calls: seq<Call>, outs: seq<Outcome>, key: Key, window: nat, m: nat, times: set<Member>)
    requires m < |calls| == |outs|
    requires forall i :: 0 <= i <= m && calls[m].now - window * TICKS < calls[i].now ==> Member(calls[i].now) in times
    ensures CountAt(calls, outs, key, window, m) <= |times|
  {
    var counted := InWindow(Touches(calls, outs, key, m + 1), window, calls[m].now);
    assert counted <= times;
    SubsetSize(counted, times);
  }

  /** A call that passes has touched all three windows. */
  lemma PassedTouches(c: Config, calls: seq<Call>, outs: seq<Outcome>, m: nat, v: nat)
    requires IsRun(c, calls, outs) && m < |calls| && calls[m].Request? && outs[m].result.Within? && v < 3
    ensures GlobalKey(calls[m].ip, v) in outs[m].touched
  {
    assert Answered(c, calls, outs, m);
    RequestEffect(c, Before(outs, m), calls[m]);
    assert Few(outs[m], GlobalKey(calls[m].ip, v), Threshold(c, v));
  }

  lemma TwoCount(calls: seq<Call>, outs: seq<Outcome>, key: Key, window: nat, m: nat, a: nat, b: nat)
    requires m < |calls| == |outs| && a < b <= m && key in outs[a].touched && key in outs[b].touched
    requires calls[m].now - window * TICKS < calls[a].now < calls[b].now <= calls[m].now
    ensures CountAt(calls, outs, key, window, m) >= 2
  {
    var counted := InWindow(Touches(calls, outs, key, m + 1), window, calls[m].now);
    var two := {Member(calls[a].now), Member(calls[b].now)};
    assert Member(calls[a].now) in counted && Member(calls[b].now) in counted;
    assert Member(calls[a].now) != Member(calls[b].now);
    SubsetSize(two, counted);
  }

  /** Three requests half a minute apart. */
  ghost predicate ThreeRequests(calls: seq<Call>, ip: string) {
    && |calls| == 3
    && (forall i :: 0 <= i < 3 ==> calls[i].Request? && calls[i].ip == ip)
    && calls[0].now == 0 && calls[1].now == 30 * TICKS && calls[2].now == 60 * TICKS
  }

  lemma FirstPasses(calls: seq<Call>, outs: seq<Outcome>, ip: string)
    requires ThreeRequests(calls, ip) && IsRun(OneRequestAMinute(), calls, outs)
    ensures outs[0].result.Within?
  {
    var c := OneRequestAMinute();
    FitsIff(c, calls, outs, 0);
    NoPathResolves(calls, outs, 0);
    forall v: nat | v < 3 ensures WindowFits(c, calls, outs, 0, v) {
      CountIsSmall(calls, outs, GlobalKey(ip, v), WindowSeconds(v), 0, {Member(0)});
    }
  }

  lemma NoPathResolves(calls: seq<Call>, outs: seq<Outcome>, m: nat)
    requires m < |calls| == |outs| && calls[m].Request?
    ensures PathFits(OneRequestAMinute(), calls, outs, m)
  {
    assert Resolves([], calls[m].path, Upper(calls[m].verb), Resolved([], calls[m].path, Upper(calls[m].verb)));
  }

  /** The burst and five-minute windows have room; only the minute can refuse. */
  lemma OnlyTheMinute(calls: seq<Call>, outs: seq<Outcome>, ip: string, m: nat)
    requires ThreeRequests(calls, ip) && IsRun(OneRequestAMinute(), calls, outs) && m < 3 && outs[m].result.Exceeded?
    ensures outs[m].result.breach == Global(1)
  {
    var c := OneRequestAMinute();
    ExceededOverflows(c, calls, outs, m);
    NoPathResolves(calls, outs, m);
    forall v: nat | v < 3 && v != 1 ensures WindowFits(c, calls, outs, m, v) {
      var all := {Member(0), Member(30 * TICKS), Member(60 * TICKS)};
      CountIsSmall(calls, outs, GlobalKey(ip, v), WindowSeconds(v), m, all);
    }
  }

  lemma SecondRefused(calls: seq<Call>, outs: seq<Outcome>, ip: string)
    requires ThreeRequests(calls, ip) && IsRun(OneRequestAMinute(), calls, outs) && outs[0].result.Within?
    ensures outs[1].result == Exceeded(Global(1), 30) && GlobalKey(ip, 1) in outs[1].touched
  {
    var c, key := OneRequestAMinute(), GlobalKey(ip, 1);
    PassedTouches(c, calls, outs, 0, 1);
    if outs[1].result.Within? {
      PassedTouches(c, calls, outs, 1, 1);
      FitsIff(c, calls, outs, 1);
      assert WindowFits(c, calls, outs, 1, 1);
      TwoCount(calls, outs, key, 60, 1, 0, 1);
      assert false;
    }
    OnlyTheMinute(calls, outs, ip, 1);
    SecondAdvice(calls, outs, ip);
  }

  lemma SecondAdvice(calls: seq<Call>, outs: seq<Outcome>, ip: string)
    requires ThreeRequests(calls, ip) && IsRun(OneRequestAMinute(), calls, outs)
    requires GlobalKey(ip, 1) in outs[0].touched && outs[1].result.Exceeded? && outs[1].result.breach == Global(1)
    ensures outs[1].result.retryAfter == 30 && GlobalKey(ip, 1) in outs[1].touched
  {
    var c := OneRequestAMinute();
    assert Answered(c, calls, outs, 1);
    var key, window := RefusalNamesItsKey(c, Before(outs, 1), calls[1]);
    assert key == GlobalKey(ip, 1) && window == 60;
    assert KeyTiming(c, key, 60, WindowTtl(1));
    RunIsTracked(c, calls, outs, key);
    ContentIsWindow(c, calls, outs, 1, key, 60, WindowTtl(1));
    var members := outs[1].zsets[key].members;
    assert Member(0) in members;
    assert forall m :: m in members ==> 0 <= m.score;
  }

  lemma ThirdRefused(calls: seq<Call>, outs: seq<Outcome>, ip: string)
    requires ThreeRequests(calls, ip) && IsRun(OneRequestAMinute(), calls, outs) && GlobalKey(ip, 1) in outs[1].touched
    ensures outs[2].result.Exceeded?
  {
    var c, key := OneRequestAMinute(), GlobalKey(ip, 1);
    if outs[2].result.Within? {
      PassedTouches(c, calls, outs, 2, 1);
      FitsIff(c, calls, outs, 2);
      assert WindowFits(c, calls, outs, 2, 1);
      TwoCount(calls, outs, key, 60, 2, 1, 2);
      assert false;
    }
  }

  /** The advice is not enough for ordinary requests either: with one a minute
      allowed, a request that is refused by the minute window and waits the 30
      seconds it is told is refused again. */
  lemma RequestRetryCanFail(ip: string, path: string, verb: string) returns (calls: seq<Call>, outs: seq<Outcome>)
    ensures ValidConfig(OneRequestAMinute()) && IsRun(OneRequestAMinute(), calls, outs) && ThreeRequests(calls, ip)
    ensures outs[0].result.Within? && outs[1].result == Exceeded(Global(1), 30) && outs[2].result.Exceeded?
  {
    calls := [Request(ip, 0, path, verb), Request(ip, 30 * TICKS, path, verb), Request(ip, 60 * TICKS, path, verb)];
    outs := RunExists(OneRequestAMinute(), calls);
    FirstPasses(calls, outs, ip);
    SecondRefused(calls, outs, ip);
    ThirdRefused(calls, outs, ip);
  }
}
