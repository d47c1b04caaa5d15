/**
 * Verification of one token by several workers at once.
 * `verify_challenge_solution` (src/django_waf/services/challenge_service.py)
 * reads the row without a lock and saves its verdict later, so reading and
 * saving are two steps here, and anything may happen between them.
 */
module TokenRaces {
  import opened Wrappers
  import opened LeadingZeros
  import CT = ChallengeTokens

  type Token = CT.Token
  type WorkerId = string

  /** A verdict on its way to the table. */
  datatype Held = Held(call: CT.Call, outcome: CT.Outcome, row: CT.Row)

  datatype State = State(store: CT.State, held: map<WorkerId, Held>)

  datatype Step =
    /** Everything but verification. */
    | Do(call: CT.Call)
    | Fetch(w: WorkerId, call: CT.Call)
    | Save(w: WorkerId)

  predicate Enabled(s: State, step: Step) {
    match step
    case Do(call) => !call.Verify?
    case Fetch(w, call) => w !in s.held && call.Verify?
    case Save(w) => w in s.held && s.held[w].call.Verify?
  }

  /** The outcomes that save the row. */
  predicate Saves(outcome: CT.Outcome) { outcome in {CT.TooLate, CT.WrongNonce, CT.Passed} }

  /** `save(update_fields=…)`: the status, and with a pass its time and nonce. */
  function Saved(row: CT.Row, h: Held): CT.Row {
    if h.outcome == CT.Passed then row.(status := h.row.status, solvedAt := h.row.solvedAt, nonce := h.row.nonce)
    else row.(status := h.row.status)
  }

  function Next(s: State, step: Step, hash: CT.Hash): State
    requires Enabled(s, step)
  {
    match step
    case Do(call) => s.(store := CT.Next(s.store, call, hash))
    case Fetch(w, call) =>
      var (outcome, after) := CT.Verified(s.store, call, hash);
      if Saves(outcome) && call.token in after.rows then s.(held := s.held[w := Held(call, outcome, after.rows[call.token])])
      else s
    case Save(w) =>
      var h := s.held[w];
      var token := h.call.token;
      var freed := s.held - {w};
      if token !in s.store.rows then s.(held := freed)
      else
        var rows := s.store.rows[token := Saved(s.store.rows[token], h)];
        State(CT.State(rows, if h.outcome == CT.Passed then s.store.copies - {token} else s.store.copies), freed)
  }

  ghost predicate IsRun(t: seq<State>, steps: seq<Step>, hash: CT.Hash) {
    && |t| == |steps| + 1
    && t[0] == State(CT.State(map[], map[]), map[])
    && forall i: nat :: i < |steps| ==> Took(t, steps, hash, i)
  }

  ghost predicate Took(t: seq<State>, steps: seq<Step>, hash: CT.Hash, i: nat)
    requires i < |steps| < |t|
  {
    Enabled(t[i], steps[i]) && t[i + 1] == Next(t[i], steps[i], hash)
  }

  /** The step lets worker w through on the token. */
  ghost predicate PassesAt(t: seq<State>, steps: seq<Step>, i: nat, w: WorkerId, token: Token) {
    && i < |steps| < |t|
    && steps[i] == Save(w)
    && Holding(t[i], w, token)
    && token in t[i].store.rows
  }

  /** Worker w has seen enough to pass on the token and has not saved it. */
  ghost predicate Holding(s: State, w: WorkerId, token: Token) {
    w in s.held && s.held[w].call.Verify? && s.held[w].call.token == token && s.held[w].outcome == CT.Passed
  }

  /***** What survives *****/

  /** Every held verdict is final: it sets the row to a terminal status. */
  ghost predicate VerdictsAreFinal(s: State) {
    forall w :: w in s.held ==> s.held[w].row.status != CT.Pending
  }

  lemma StepKeepsFinal(s: State, step: Step, hash: CT.Hash)
    requires Enabled(s, step) && VerdictsAreFinal(s)
    ensures VerdictsAreFinal(Next(s, step, hash))
  {
    if step.Fetch? {
      FetchIsFinal(s, step.call, hash);
    }
  }

  lemma FetchIsFinal(s: State, call: CT.Call, hash: CT.Hash)
    requires call.Verify?
    ensures var (outcome, after) := CT.Verified(s.store, call, hash);
            && (Saves(outcome) && call.token in after.rows ==> after.rows[call.token].status != CT.Pending)
            && (outcome == CT.Passed ==> call.token in s.store.rows && s.store.rows[call.token].status == CT.Pending && call.token in after.rows)
  {
  }

  lemma {:induction false} RunKeepsFinal(t: seq<State>, steps: seq<Step>, hash: CT.Hash, i: nat)
    requires IsRun(t, steps, hash) && i <= |steps|
    ensures VerdictsAreFinal(t[i])
  {
    if i > 0 {
      RunKeepsFinal(t, steps, hash, i - 1);
      assert Took(t, steps, hash, i - 1);
      StepKeepsFinal(t[i - 1], steps[i - 1], hash);
    }
  }

  ghost predicate Spent(s: State, token: Token) {
    token in s.store.rows ==> s.store.rows[token].status != CT.Pending
  }

  predicate Issues(step: Step, token: Token) { step.Do? && step.call.Issue? && step.call.token == token }

  /** A row that has left PENDING never returns to it, though one verdict may
      overwrite another. */
  lemma StepKeepsSpent(s: State, step: Step, hash: CT.Hash, token: Token)
    requires Enabled(s, step) && VerdictsAreFinal(s) && Spent(s, token) && !Issues(step, token)
    ensures Spent(Next(s, step, hash), token)
  {
  }

  lemma {:induction false} StaysSpent(t: seq<State>, steps: seq<Step>, hash: CT.Hash, token: Token, i: nat, j: nat)
    requires IsRun(t, steps, hash) && i <= j <= |steps| && Spent(t[i], token)
    requires forall k: nat | i <= k < j :: !Issues(steps[k], token)
    ensures Spent(t[j], token)
  {
    if i < j {
      StaysSpent(t, steps, hash, token, i, j - 1);
      RunKeepsFinal(t, steps, hash, j - 1);
      assert Took(t, steps, hash, j - 1) && !Issues(steps[j - 1], token);
      StepKeepsSpent(t[j - 1], steps[j - 1], hash, token);
    }
  }

  /** A worker that holds a pass fetched it, from a row then pending. */
  lemma {:induction false} HeldSince(t: seq<State>, steps: seq<Step>, hash: CT.Hash, k: nat, w: WorkerId, token: Token) returns (f: nat)
    requires IsRun(t, steps, hash) && k <= |steps| && Holding(t[k], w, token)
    ensures f < k && steps[f].Fetch? && steps[f].w == w && !Spent(t[f], token)
    ensures forall m: nat | f < m <= k :: Holding(t[m], w, token)
  {
    var before, step := t[k - 1], steps[k - 1];
    assert Took(t, steps, hash, k - 1);
    if step.Fetch? && step.w == w {
      f := k - 1;
      FetchIsFinal(before, step.call, hash);
    } else {
      StillHolding(before, step, hash, w, token);
      f := HeldSince(t, steps, hash, k - 1, w, token);
    }
  }

  lemma StillHolding(s: State, step: Step, hash: CT.Hash, w: WorkerId, token: Token)
    requires Enabled(s, step) && Holding(Next(s, step, hash), w, token) && !(step.Fetch? && step.w == w)
    ensures Holding(s, w, token)
  {
  }

  /***** Main results *****/

  /**
   * A token passes again only for whoever was already through: if it passes at
   * step i and at a later step k, and is not issued anew in between, then the
   * second verification had read the row before the first saved it. Verifications
   * of one token that do not overlap pass at most once between them.
   */
  lemma PassesOverlap(t: seq<State>, steps: seq<Step>, hash: CT.Hash, i: nat, v: WorkerId, k: nat, w: WorkerId, token: Token)
      returns (f: nat)
    requires IsRun(t, steps, hash) && i < k
    requires PassesAt(t, steps, i, v, token) && PassesAt(t, steps, k, w, token)
    requires forall m: nat | i < m < k :: !Issues(steps[m], token)
    ensures f < i && steps[f].Fetch? && steps[f].w == w && v != w && Holding(t[i], w, token)
  {
    RunKeepsFinal(t, steps, hash, i);
    assert Took(t, steps, hash, i);
    assert Spent(t[i + 1], token);
    f := HeldSince(t, steps, hash, k, w, token);
    if f > i {
      StaysSpent(t, steps, hash, token, i + 1, f);
      assert false;
    }
    assert f != i;
    assert Holding(t[i], w, token);
    assert Holding(t[i + 1], w, token);
  }

  /** What is held stays held until it is saved. */
  lemma StepKeepsHolding(s: State, step: Step, hash: CT.Hash, w: WorkerId, token: Token)
    requires Enabled(s, step) && Holding(s, w, token) && step != Save(w)
    ensures Holding(Next(s, step, hash), w, token)
  {
  }

  lemma {:induction false} StaysHolding(t: seq<State>, steps: seq<Step>, hash: CT.Hash, w: WorkerId, token: Token, i: nat, k: nat)
    requires IsRun(t, steps, hash) && i <= k <= |steps| && Holding(t[i], w, token)
    requires forall m: nat | i <= m < k :: steps[m] != Save(w)
    ensures Holding(t[k], w, token)
  {
    if i < k {
      StaysHolding(t, steps, hash, w, token, i, k - 1);
      assert Took(t, steps, hash, k - 1) && steps[k - 1] != Save(w);
      StepKeepsHolding(t[k - 1], steps[k - 1], hash, w, token);
    }
  }

  /**
   * Who passes on a token already passed on, exactly. After v passed at step i,
   * the next verdict w saves, at step k, while the row is there and without a new
   * issue, is a pass on that token if and only if w was someone else who already
   * held one when v's was saved.
   */
  lemma PassesAgainIff(t: seq<State>, steps: seq<Step>, hash: CT.Hash, i: nat, v: WorkerId, k: nat, w: WorkerId, token: Token)
    requires IsRun(t, steps, hash) && i < k < |steps| && PassesAt(t, steps, i, v, token)
    requires steps[k] == Save(w) && forall m: nat | i < m < k :: steps[m] != Save(w)
    requires token in t[k].store.rows && forall m: nat | i < m < k :: !Issues(steps[m], token)
    ensures PassesAt(t, steps, k, w, token) <==> v != w && Holding(t[i], w, token)
  {
    if v != w && Holding(t[i], w, token) {
      StaysHolding(t, steps, hash, w, token, i, k);
    }
    if PassesAt(t, steps, k, w, token) {
      var f := PassesOverlap(t, steps, hash, i, v, k, w, token);
    }
  }

  /** From any state in which two workers hold a pass on a token whose row exists,
      saving the one leaves the other to pass as well. */
  lemma HoldersBothPass(s: State, hash: CT.Hash, v: WorkerId, w: WorkerId, token: Token)
    requires v != w && Holding(s, v, token) && Holding(s, w, token) && token in s.store.rows
    ensures Enabled(s, Save(v))
    ensures var s' := Next(s, Save(v), hash);
            && Enabled(s', Save(w)) && Holding(s', w, token) && token in s'.store.rows
            && token in Next(s', Save(w), hash).store.rows && Next(s', Save(w), hash).store.rows[token].status == s.held[w].row.status
  {
  }

  /** And it happens at every difficulty: a solved token, read by two workers before
      either saves, lets both through. */
  lemma BothPass(hash: CT.Hash, token: Token, ip: string, difficulty: nat, ttl: nat, nonce: string) returns (t: seq<State>, steps: seq<Step>)
    requires HasLeadingZeroBits(hash(token + nonce), difficulty)
    ensures IsRun(t, steps, hash) && |steps| == 5
    ensures steps[0] == Do(CT.Issue(token, ip, difficulty, ttl, 0, 0))
    ensures PassesAt(t, steps, 3, "a", token) && PassesAt(t, steps, 4, "b", token)
  {
    var verify := CT.Verify(token, nonce, ip, 0, 0);
    var row := CT.Row(ip, difficulty, ttl, CT.Pending, None, "");
    var solved := CT.Row(ip, difficulty, ttl, CT.Solved, Some(0), nonce);
    var copies := map[token := CT.Copy(CT.Fields(ip, difficulty), ttl)];
    var held := Held(verify, CT.Passed, solved);
    var s0 := State(CT.State(map[], map[]), map[]);
    var s1 := State(CT.State(map[token := row], copies), map[]);
    var s2 := s1.(held := map["a" := held]);
    var s3 := s1.(held := map["a" := held, "b" := held]);
    assert CT.Verified(s1.store, verify, hash).0 == CT.Passed && CT.Verified(s1.store, verify, hash).1.rows == map[token := solved];
    var s4 := State(CT.State(map[token := solved], map[]), map["b" := held]);
    var s5 := State(CT.State(map[token := solved], map[]), map[]);
    steps := [Do(CT.Issue(token, ip, difficulty, ttl, 0, 0)), Fetch("a", verify), Fetch("b", verify), Save("a"), Save("b")];
    t := [s0, s1, s2, s3, s4, s5];
    assert Next(s0, steps[0], hash) == s1 && Next(s1, steps[1], hash) == s2 && Next(s2, steps[2], hash) == s3;
    assert s3.held - {"a"} == map["b" := held] && copies - {token} == map[];
    assert Next(s3, steps[3], hash) == s4;
    assert s4.held - {"b"} == map[];
    assert Next(s4, steps[4], hash) == s5;
    forall i: nat | i < 5 ensures Took(t, steps, hash, i) {
    }
  }
}
