/**
 * Proof-of-work challenge tokens: a table row per token, and a copy of it in
 * Redis that expires, may be evicted and may come back unreadable.
 *
 * Calls are sequential. The digest of token and nonce is a parameter. Times are
 * microseconds; the row's expiry is computed before the row is written and the
 * copy's time to live starts only when the copy is written, so each issue has
 * two times.
 */
module ChallengeTokens {
  import opened Wrappers
  import opened LeadingZeros

  type Token = string
  type Time = int
  type Hash = string -> Digest

  datatype Status = Pending | Solved | Failed | Expired

  datatype Row = Row(ip: string, difficulty: nat, expiresAt: Time, status: Status, solvedAt: Option<Time>, nonce: string)

  /** What a copy's value reads as: the two fields; nothing, for text that is not
      JSON or lacks a field; or a difficulty that is no integer, whose exception
      is not caught. */
  datatype Payload = Fields(ip: string, difficulty: nat) | Unreadable | NotInteger

  datatype Copy = Copy(payload: Payload, deadline: Time)

  datatype State = State(rows: map<Token, Row>, copies: map<Token, Copy>)

  /** The ways `verify_challenge_solution` ends. NoRow is the uncaught
      DoesNotExist of the second row lookup, Raised the uncaught error of a
      difficulty that is no integer. */
  datatype Outcome = Passed | NotFound | NotValid | TooLate | WrongIp | WrongNonce | NoRow | Raised

  datatype Call =
    | Issue(token: Token, ip: string, difficulty: nat, ttl: nat, now: Time, stored: Time)
    | Verify(token: Token, nonce: string, ip: string, now: Time, solvedAt: Time)
    | Evict(token: Token, now: Time)
    | Garble(token: Token, to: Payload, now: Time)
    | Prune(age: nat, now: Time)

  /***** What each call does *****/

  /** `redis_client.get`: a copy past its deadline is gone. */
  function Get(s: State, token: Token, now: Time): (copy: Option<Copy>) {
    if token in s.copies && now < s.copies[token].deadline then Some(s.copies[token]) else None
  }

  /** The token column is unique: a clash raises and leaves everything as it was. */
  function Issued(s: State, call: Call): State
    requires call.Issue?
  {
    if call.token in s.rows then s
    else State(
      s.rows[call.token := Row(call.ip, call.difficulty, call.now + call.ttl, Pending, None, "")],
      s.copies[call.token := Copy(Fields(call.ip, call.difficulty), call.stored + call.ttl)])
  }

  /** What verification decides once it has a row, an IP and a difficulty. */
  function Judged(row: Row, ip: string, difficulty: nat, call: Call, hash: Hash): (Outcome, Row)
    requires call.Verify?
  {
    if row.status != Pending then (NotValid, row)
    else if row.expiresAt < call.now then (TooLate, row.(status := Expired))
    else if ip != call.ip then (WrongIp, row)
    else if !HasLeadingZeroBits(hash(call.token + call.nonce), difficulty) then (WrongNonce, row.(status := Failed))
    else (Passed, row.(status := Solved, solvedAt := Some(call.solvedAt), nonce := call.nonce))
  }

  /** Verification that reads the table alone: no cache is involved. */
  function Reference(rows: map<Token, Row>, call: Call, hash: Hash): (Outcome, map<Token, Row>)
    requires call.Verify?
  {
    if call.token !in rows then (NotFound, rows)
    else
      var row := rows[call.token];
      var (outcome, after) := Judged(row, row.ip, row.difficulty, call, hash);
      (outcome, rows[call.token := after])
  }

  /** Verification as written: the copy's IP and difficulty where there is a
      readable copy, the row's status and expiry always. */
  function Verified(s: State, call: Call, hash: Hash): (Outcome, State)
    requires call.Verify?
  {
    var copy := Get(s, call.token, call.now);
    var found := if copy.Some? then copy.value.payload else Unreadable;
    if found.NotInteger? then (Raised, s)
    else if call.token !in s.rows then (if found.Fields? then NoRow else NotFound, s)
    else
      var row := s.rows[call.token];
      var (outcome, after) :=
        if found.Fields? then Judged(row, found.ip, found.difficulty, call, hash)
        else Judged(row, row.ip, row.difficulty, call, hash);
      (outcome,
       State(s.rows[call.token := after], if outcome == Passed then s.copies - {call.token} else s.copies))
  }

  predicate Prunable(row: Row, age: nat, now: Time) {
    row.status in {Pending, Failed} && row.expiresAt < now - age
  }

  function Pruned(rows: map<Token, Row>, age: nat, now: Time): map<Token, Row> {
    map token | token in rows && !Prunable(rows[token], age, now) :: rows[token]
  }

  function Next(s: State, call: Call, hash: Hash): State {
    match call
    case Issue(_, _, _, _, _, _) => Issued(s, call)
    case Verify(_, _, _, _, _) => Verified(s, call, hash).1
    case Evict(token, _) => s.(copies := s.copies - {token})
    case Garble(token, to, _) =>
      if token in s.copies && !to.Fields? then s.(copies := s.copies[token := s.copies[token].(payload := to)]) else s
    case Prune(age, now) => s.(rows := Pruned(s.rows, age, now))
  }

  /***** The code *****/

  class TokenStore {
    var rows: map<Token, Row>
    var copies: map<Token, Copy>

    ghost function Contents(): State
      reads this
    {
      State(rows, copies)
    }

    constructor ()
      ensures Contents() == State(map[], map[])
    {
      rows, copies := map[], map[];
    }

    /** `issue_challenge`; false is the integrity error of a token already used. */
    method IssueChallenge(token: Token, ip: string, difficulty: nat, ttl: nat, now: Time, stored: Time) returns (ok: bool)
      modifies this
      ensures Contents() == Issued(old(Contents()), Issue(token, ip, difficulty, ttl, now, stored))
      ensures ok <==> token !in old(rows)
    {
      var expiresAt := now + ttl;
      if token in rows {
        return false;
      }
      rows := rows[token := Row(ip, difficulty, expiresAt, Pending, None, "")];
      copies := copies[token := Copy(Fields(ip, difficulty), stored + ttl)];
      return true;
    }

    /** `verify_challenge_solution`. */
    method VerifySolution(token: Token, nonce: string, ip: string, now: Time, solvedAt: Time, hash: Hash)
      returns (outcome: Outcome)
      modifies this
      ensures (outcome, Contents()) == Verified(old(Contents()), Verify(token, nonce, ip, now, solvedAt), hash)
    {
      var storedIp, difficulty := "", 0;
      var raw := token in copies && now < copies[token].deadline;
      if raw {
        match copies[token].payload
        case Fields(storedIp', difficulty') => storedIp, difficulty := storedIp', difficulty';
        case NotInteger => return Raised;
        case Unreadable => raw := false;
      }
      if !raw {
        if token !in rows {
          return NotFound;
        }
        storedIp, difficulty := rows[token].ip, rows[token].difficulty;
      }
      if token !in rows {
        return NoRow;
      }
      var row := rows[token];
      assert rows[token := row] == rows;
      if row.status in {Expired, Solved, Failed} {
        return NotValid;
      }
      if row.expiresAt < now {
        rows := rows[token := row.(status := Expired)];
        return TooLate;
      }
      if storedIp != ip {
        return WrongIp;
      }
      if !HasLeadingZeroBits(hash(token + nonce), difficulty) {
        rows := rows[token := row.(status := Failed)];
        return WrongNonce;
      }
      rows := rows[token := row.(status := Solved, solvedAt := Some(solvedAt), nonce := nonce)];
      copies := copies - {token};
      return Passed;
    }

    /** `prune_challenge_tokens`. */
    method PruneTokens(age: nat, now: Time) returns (deleted: nat)
      modifies this
      ensures Contents() == Next(old(Contents()), Prune(age, now), _ => [])
      ensures deleted == |old(rows)| - |rows|
    {
      var gone := set token | token in rows && Prunable(rows[token], age, now);
      deleted := |gone|;
      rows := rows - gone;
      assert rows == Pruned(old(rows), age, now);
      assert old(rows).Keys == rows.Keys + gone;
      assert |rows.Keys| == |rows|;
    }
  }

  /***** Runs *****/

  /** The call's moment; an issue ends when it has stored its copy. */
  function Ends(call: Call): Time {
    if call.Issue? then call.stored else call.now
  }

  /** A sequential run from an empty store: time does not go back. */
  ghost predicate IsRun(t: seq<State>, calls: seq<Call>, hash: Hash) {
    && |t| == |calls| + 1
    && t[0] == State(map[], map[])
    && (forall i :: 0 <= i < |calls| ==> t[i + 1] == Next(t[i], calls[i], hash))
    && (forall i :: 0 <= i < |calls| ==> calls[i].now <= Ends(calls[i]))
    && (forall i, j :: 0 <= i < j < |calls| ==> Ends(calls[i]) <= calls[j].now)
  }

  /** No issue takes longer to store its copy than a prune lets rows outlive their
      expiry; pruning is strict, hence the one. */
  predicate Prompt(calls: seq<Call>, slack: nat) {
    forall i :: 0 <= i < |calls| ==>
      match calls[i]
      case Issue(_, _, _, _, now, stored) => stored - now <= slack
      case Prune(age, _) => slack <= age + 1
      case _ => true
  }

  /** A copy that is still live has its row, says what the row says and outlives
      the row's expiry by no more than the slack. */
  predicate CopyAgrees(s: State, token: Token, slack: nat, now: Time) {
    token in s.copies && now < s.copies[token].deadline ==>
      && token in s.rows
      && s.copies[token].deadline <= s.rows[token].expiresAt + slack
      && (s.copies[token].payload.Fields? ==>
            s.copies[token].payload == Fields(s.rows[token].ip, s.rows[token].difficulty))
  }

  ghost predicate Agrees(s: State, slack: nat, now: Time) {
    forall token :: CopyAgrees(s, token, slack, now)
  }

  lemma StepKeepsAgreement(s: State, call: Call, hash: Hash, slack: nat)
    requires Agrees(s, slack, call.now) && call.now <= Ends(call) && Prompt([call], slack)
    ensures Agrees(Next(s, call, hash), slack, Ends(call))
  {
    var after := Next(s, call, hash);
    assert [call][0] == call;
    forall token ensures CopyAgrees(after, token, slack, Ends(call)) {
      assert CopyAgrees(s, token, slack, call.now);
    }
  }

  lemma {:induction false} RunAgrees(t: seq<State>, calls: seq<Call>, hash: Hash, slack: nat, i: nat)
    requires IsRun(t, calls, hash) && Prompt(calls, slack) && i < |calls|
    ensures Agrees(t[i], slack, calls[i].now)
  {
    if i > 0 {
      RunAgrees(t, calls, hash, slack, i - 1);
      var call := calls[i - 1];
      assert Prompt([call], slack);
      StepKeepsAgreement(t[i - 1], call, hash, slack);
      assert Ends(call) <= calls[i].now;
      forall token ensures CopyAgrees(t[i], token, slack, calls[i].now) {
        assert CopyAgrees(t[i], token, slack, Ends(call));
      }
    }
  }

  /** The copy makes verification raise before it looks at the row. */
  predicate CopyRaises(s: State, token: Token, now: Time) {
    Get(s, token, now).Some? && Get(s, token, now).value.payload.NotInteger?
  }

  /**
   * The copy is invisible: in every run, whatever was evicted or garbled,
   * verification ends as it would with no cache at all, leaves the same rows, and
   * never meets a copy without its row; except that it raises, changing nothing,
   * exactly when the copy's difficulty has become no integer.
   */
  lemma CopyIsInvisible(t: seq<State>, calls: seq<Call>, hash: Hash, slack: nat, i: nat)
    requires IsRun(t, calls, hash) && Prompt(calls, slack) && i < |calls| && calls[i].Verify?
    ensures var outcome := Verified(t[i], calls[i], hash).0;
            && (outcome == Raised <==> CopyRaises(t[i], calls[i].token, calls[i].now))
            && (outcome == Raised ==> t[i + 1] == t[i])
            && (outcome != Raised ==>
                  && outcome == Reference(t[i].rows, calls[i], hash).0 != NoRow
                  && t[i + 1].rows == Reference(t[i].rows, calls[i], hash).1)
    ensures Get(t[i], calls[i].token, calls[i].now).Some? ==> calls[i].token in t[i].rows
  {
    RunAgrees(t, calls, hash, slack, i);
    assert CopyAgrees(t[i], calls[i].token, slack, calls[i].now);
    assert t[i + 1] == Next(t[i], calls[i], hash);
  }

  /** Promptness is exact: with any longer lag there is a run in which a copy
      outlives its pruned row, and the second lookup raises. */
  lemma LateCopyLosesItsRow(hash: Hash, lag: nat, age: nat) returns (t: seq<State>, calls: seq<Call>)
    requires age + 1 < lag
    ensures IsRun(t, calls, hash) && |calls| == 3
    ensures calls[0].Issue? && calls[0].stored - calls[0].now == lag
    ensures calls[1].Prune? && calls[1].age == age
    ensures calls[2].Verify? && Verified(t[2], calls[2], hash).0 == NoRow
    ensures Reference(t[2].rows, calls[2], hash).0 == NotFound
  {
    var later := lag + age + 1;
    calls := [Issue("a", "ip", 20, lag, 0, lag), Prune(age, later), Verify("a", "n", "ip", later, later)];
    var s0 := State(map[], map[]);
    var s1 := Next(s0, calls[0], hash);
    var s2 := Next(s1, calls[1], hash);
    t := [s0, s1, s2, Next(s2, calls[2], hash)];
    assert "a" !in s2.rows && Get(s2, "a", later).Some?;
  }

  /***** Terminal states and single use *****/

  /** SOLVED, FAILED and EXPIRED are never left: a call leaves such a row exactly as
      it is, or, if it is FAILED, prunes it. */
  lemma TerminalStays(s: State, call: Call, hash: Hash, token: Token)
    requires token in s.rows && s.rows[token].status != Pending
    ensures var after := Next(s, call, hash).rows;
            if token in after then after[token] == s.rows[token]
            else s.rows[token].status == Failed && call.Prune?
  {
  }

  ghost predicate PassedAt(t: seq<State>, calls: seq<Call>, hash: Hash, i: nat, token: Token) {
    i < |calls| < |t| && calls[i].Verify? && calls[i].token == token && Verified(t[i], calls[i], hash).0 == Passed
  }

  lemma {:induction false} SolvedStays(t: seq<State>, calls: seq<Call>, hash: Hash, token: Token, i: nat, j: nat)
    requires IsRun(t, calls, hash) && i <= j <= |calls|
    requires token in t[i].rows && t[i].rows[token].status in {Solved, Expired}
    ensures token in t[j].rows && t[j].rows[token] == t[i].rows[token]
  {
    if i < j {
      SolvedStays(t, calls, hash, token, i, j - 1);
      TerminalStays(t[j - 1], calls[j - 1], hash, token);
    }
  }

  /** No token ever passes twice. */
  lemma PassesOnce(t: seq<State>, calls: seq<Call>, hash: Hash, token: Token, i: nat, j: nat)
    requires IsRun(t, calls, hash) && i < j
    requires PassedAt(t, calls, hash, i, token)
    ensures !PassedAt(t, calls, hash, j, token)
  {
    if j < |calls| {
      assert t[i + 1] == Next(t[i], calls[i], hash);
      SolvedStays(t, calls, hash, token, i + 1, j);
    }
  }

  /** Every row comes from an issue call, and keeps what that call gave it. */
  predicate ComesFrom(row: Row, token: Token, call: Call) {
    && call.Issue?
    && call.token == token
    && call.ip == row.ip
    && call.difficulty == row.difficulty
    && call.now + call.ttl == row.expiresAt
  }

  lemma {:induction false} RowsAreIssued(t: seq<State>, calls: seq<Call>, hash: Hash, token: Token, i: nat) returns (k: nat)
    requires IsRun(t, calls, hash) && i <= |calls| && token in t[i].rows
    ensures k < i && ComesFrom(t[i].rows[token], token, calls[k])
  {
    assert i > 0;
    assert t[i] == Next(t[i - 1], calls[i - 1], hash);
    if token in t[i - 1].rows {
      k := RowsAreIssued(t, calls, hash, token, i - 1);
    } else {
      k := i - 1;
    }
  }

  /**
   * What a pass proves: an earlier call issued this token to this IP, at most its
   * time to live ago, and the nonce's digest read as a number is below the bound
   * of the difficulty then issued.
   */
  lemma PassMeansWork(t: seq<State>, calls: seq<Call>, hash: Hash, slack: nat, token: Token, i: nat) returns (k: nat)
    requires IsRun(t, calls, hash) && Prompt(calls, slack) && PassedAt(t, calls, hash, i, token)
    ensures k < i && calls[k].Issue? && calls[k].token == token
    ensures calls[k].ip == calls[i].ip
    ensures calls[k].now <= calls[i].now <= calls[k].now + calls[k].ttl
    ensures var digest := hash(token + calls[i].nonce);
            calls[k].difficulty <= 8 * |digest| && Value(digest) < Pow2(8 * |digest| - calls[k].difficulty)
  {
    CopyIsInvisible(t, calls, hash, slack, i);
    k := RowsAreIssued(t, calls, hash, token, i);
    ZeroBitsAreABound(hash(token + calls[i].nonce), calls[k].difficulty);
    assert Ends(calls[k]) <= calls[i].now;
  }

  /** The other direction: a pending token passes when all of these hold. */
  lemma WorkPasses(t: seq<State>, calls: seq<Call>, hash: Hash, slack: nat, i: nat)
    requires IsRun(t, calls, hash) && Prompt(calls, slack) && i < |calls| && calls[i].Verify?
    ensures Verified(t[i], calls[i], hash).0 == Passed
            <==> && !CopyRaises(t[i], calls[i].token, calls[i].now)
                 && calls[i].token in t[i].rows
                 && var row := t[i].rows[calls[i].token];
                    && row.status == Pending && calls[i].now <= row.expiresAt && row.ip == calls[i].ip
                    && HasLeadingZeroBits(hash(calls[i].token + calls[i].nonce), row.difficulty)
  {
    CopyIsInvisible(t, calls, hash, slack, i);
  }

  /***** Every outcome *****/

  /**
   * How a verification ends and what it leaves, in every run, on the columns of the
   * row. A row no longer pending is refused and stays; a late one is marked
   * EXPIRED; one of another address stays pending; a wrong nonce marks it FAILED;
   * and only the right one from the right address in time marks it SOLVED, with
   * its time and nonce, and drops its copy. No other row or copy changes.
   */
  lemma OutcomeTable(t: seq<State>, calls: seq<Call>, hash: Hash, slack: nat, i: nat)
    requires IsRun(t, calls, hash) && Prompt(calls, slack) && i < |calls| && calls[i].Verify?
    requires calls[i].token in t[i].rows && !CopyRaises(t[i], calls[i].token, calls[i].now)
    ensures var call, row := calls[i], t[i].rows[calls[i].token];
            var outcome, rows := Verified(t[i], call, hash).0, t[i + 1].rows;
            var right := HasLeadingZeroBits(hash(call.token + call.nonce), row.difficulty);
            if row.status != Pending then outcome == NotValid && rows == t[i].rows
            else if row.expiresAt < call.now then outcome == TooLate && rows == t[i].rows[call.token := row.(status := Expired)]
            else if row.ip != call.ip then outcome == WrongIp && rows == t[i].rows
            else if !right then outcome == WrongNonce && rows == t[i].rows[call.token := row.(status := Failed)]
            else
              && outcome == Passed
              && rows == t[i].rows[call.token := Row(row.ip, row.difficulty, row.expiresAt, Solved, Some(call.solvedAt), call.nonce)]
    ensures var copies, after := t[i].copies, t[i + 1].copies;
            && (Verified(t[i], calls[i], hash).0 == Passed ==> calls[i].token !in after)
            && (Verified(t[i], calls[i], hash).0 != Passed ==> after == copies)
            && forall other :: other != calls[i].token ==> (other in after <==> other in copies) && (other in copies ==> after[other] == copies[other])
  {
    CopyIsInvisible(t, calls, hash, slack, i);
    var row := t[i].rows[calls[i].token];
    assert t[i].rows[calls[i].token := row] == t[i].rows;
  }

  lemma {:induction false} StaysSpent(t: seq<State>, calls: seq<Call>, hash: Hash, token: Token, i: nat, j: nat)
    requires IsRun(t, calls, hash) && i <= j <= |calls|
    requires token in t[i].rows ==> t[i].rows[token].status != Pending
    requires forall k | i <= k < j :: !(calls[k].Issue? && calls[k].token == token)
    ensures token in t[j].rows ==> t[j].rows[token].status != Pending
  {
    if i < j {
      StaysSpent(t, calls, hash, token, i, j - 1);
      assert t[j] == Next(t[j - 1], calls[j - 1], hash) && !(calls[j - 1].Issue? && calls[j - 1].token == token);
      if token in t[j - 1].rows {
        TerminalStays(t[j - 1], calls[j - 1], hash, token);
      } else {
        NotConjured(t[j - 1], calls[j - 1], hash, token);
      }
    }
  }

  lemma NotConjured(s: State, call: Call, hash: Hash, token: Token)
    requires token !in s.rows && !(call.Issue? && call.token == token)
    ensures token !in Next(s, call, hash).rows
  {
  }

  /**
   * One try. In every run, once a verification of a token has ended with a wrong
   * nonce, too late or with a pass, no later one passes, whatever it brings, unless
   * the token is issued anew.
   */
  lemma OneTry(t: seq<State>, calls: seq<Call>, hash: Hash, slack: nat, i: nat, j: nat)
    requires IsRun(t, calls, hash) && Prompt(calls, slack) && i < j < |calls|
    requires calls[i].Verify? && calls[j].Verify? && calls[i].token == calls[j].token
    requires Verified(t[i], calls[i], hash).0 in {WrongNonce, TooLate, Passed}
    requires forall k | i < k < j :: !(calls[k].Issue? && calls[k].token == calls[i].token)
    ensures Verified(t[j], calls[j], hash).0 in {NotValid, NotFound, Raised}
  {
    assert t[i + 1] == Next(t[i], calls[i], hash);
    StaysSpent(t, calls, hash, calls[i].token, i + 1, j);
    CopyIsInvisible(t, calls, hash, slack, j);
  }
}
