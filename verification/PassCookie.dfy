/**
 * The pass cookie: version, token, address and expiry joined by bars, and the
 * signature of those four after a last bar.
 *
 * Signing and address normalisation are parameters. The only fact used of the
 * signature is that a hexadecimal digest holds no bar.
 */
module PassCookie {
  import opened Wrappers
  import opened Text
  import opened Decimals

  const VERSION: string := "v2"
  const BAR: char := '|'

  type Sign = string -> string
  type Normalise = string -> string

  ghost predicate IsHexDigest(sign: Sign) {
    forall s :: Without(sign(s), BAR)
  }

  /** `int(time.time())`, which cuts toward zero. */
  function Truncate(now: real): int {
    if now >= 0.0 then now.Floor else -(-now).Floor
  }

  function Prefix(token: string, ip: string, expiry: string): string {
    Join([VERSION, token, ip, expiry], BAR)
  }

  function Signed(prefix: string, sign: Sign): string {
    prefix + [BAR] + sign(prefix)
  }

  /** The value `issue_pass_cookie` sets. */
  function Issue(token: string, ip: string, ttl: int, now: real, sign: Sign, norm: Normalise): string {
    Signed(Prefix(token, norm(ip), Print(Truncate(now) + ttl)), sign)
  }

  /** `validate_pass_cookie`. */
  predicate Validate(value: string, ip: string, now: real, sign: Sign, norm: Normalise) {
    var cut := SplitLast(value, BAR);
    if |cut| != 2 then false
    else if sign(cut[0]) != cut[1] then false
    else
      var fields := SplitMax(cut[0], BAR, 3);
      if |fields| != 4 || fields[0] != VERSION then false
      else
        var expiry := Parse(fields[3]);
        if expiry.None? || now > expiry.value as real then false
        else fields[2] == norm(ip)
  }

  /** Four bar-free fields are told apart again. */
  lemma PrefixSplits(token: string, ip: string, expiry: string)
    requires Without(token, BAR) && Without(ip, BAR) && Without(expiry, BAR)
    ensures SplitMax(Prefix(token, ip, expiry), BAR, 3) == [VERSION, token, ip, expiry]
  {
    var fields := [VERSION, token, ip, expiry];
    SplitJoin(fields, BAR);
  }

  /** Two four-field prefixes are the same text only if they are the same fields. */
  lemma FieldsAreUnique(token: string, ip: string, expiry: string, token': string, ip': string, expiry': string)
    requires Without(token, BAR) && Without(ip, BAR) && Without(expiry, BAR)
    requires Without(token', BAR) && Without(ip', BAR) && Without(expiry', BAR)
    requires Prefix(token, ip, expiry) == Prefix(token', ip', expiry')
    ensures token == token' && ip == ip' && expiry == expiry'
  {
    PrefixSplits(token, ip, expiry);
    PrefixSplits(token', ip', expiry');
    var fields, fields' := [VERSION, token, ip, expiry], [VERSION, token', ip', expiry'];
    assert fields == fields';
    assert fields[1] == fields'[1] && fields[2] == fields'[2] && fields[3] == fields'[3];
  }

  /** The shape of a value that is accepted for an address at a time. */
  ghost predicate WellFormed(value: string, token: string, ip: string, expiry: string, now: real, sign: Sign) {
    && value == "v2|" + token + "|" + ip + "|" + expiry + "|" + sign("v2|" + token + "|" + ip + "|" + expiry)
    && '|' !in token && '|' !in ip && '|' !in expiry
    && Parse(expiry).Some?
    && now <= Parse(expiry).value as real
  }

  lemma PrefixIs(token: string, ip: string, expiry: string)
    ensures Prefix(token, ip, expiry) == "v2|" + token + "|" + ip + "|" + expiry
  {
    assert [ip, expiry][1..] == [expiry];
    assert Join([ip, expiry], BAR) == ip + [BAR] + expiry;
    assert [token, ip, expiry][1..] == [ip, expiry];
    assert Join([token, ip, expiry], BAR) == token + [BAR] + (ip + [BAR] + expiry);
    assert [VERSION, token, ip, expiry][1..] == [token, ip, expiry];
    assert Prefix(token, ip, expiry) == VERSION + [BAR] + (token + [BAR] + (ip + [BAR] + expiry));
  }

  lemma WellFormedIsAccepted(value: string, token: string, ip: string, expiry: string, now: real, sign: Sign, norm: Normalise)
    requires IsHexDigest(sign) && WellFormed(value, token, norm(ip), expiry, now, sign)
    ensures Validate(value, ip, now, sign, norm)
  {
    var prefix := Prefix(token, norm(ip), expiry);
    PrefixIs(token, norm(ip), expiry);
    SplitLastCuts(prefix, sign(prefix), BAR);
    PrefixSplits(token, norm(ip), expiry);
  }

  lemma AcceptedIsWellFormed(value: string, ip: string, now: real, sign: Sign, norm: Normalise)
    returns (token: string, expiry: string)
    requires Validate(value, ip, now, sign, norm)
    ensures WellFormed(value, token, norm(ip), expiry, now, sign)
  {
    var cut := SplitLast(value, BAR);
    SplitLastJoins(value, BAR);
    var fields := SplitMax(cut[0], BAR, 3);
    SplitMaxJoins(cut[0], BAR, 3);
    token, expiry := fields[1], fields[3];
    PrefixIs(token, norm(ip), expiry);
    assert fields == [VERSION, token, norm(ip), expiry];
    var pieces := Split(cut[0], BAR);
    assert pieces[1] in pieces && pieces[2] in pieces;
    assert fields[1] == pieces[1] && fields[2] == pieces[2];
    if BAR in expiry {
      NumbersHaveNoBar(expiry);
      assert false;
    }
  }

  /** A value is accepted exactly when it is a signed four-field prefix for this
      address, unexpired; and then its fields are the only ones it can be read as. */
  lemma AcceptedValues(value: string, ip: string, now: real, sign: Sign, norm: Normalise)
    requires IsHexDigest(sign)
    ensures Validate(value, ip, now, sign, norm)
            <==> exists token, expiry :: WellFormed(value, token, norm(ip), expiry, now, sign)
    ensures forall token, ip', expiry, now', token', ip'', expiry', now'' ::
              && WellFormed(value, token, ip', expiry, now', sign)
              && WellFormed(value, token', ip'', expiry', now'', sign) ==>
              token == token' && ip' == ip'' && expiry == expiry'
  {
    if Validate(value, ip, now, sign, norm) {
      var token, expiry := AcceptedIsWellFormed(value, ip, now, sign, norm);
    }
    forall token, expiry | WellFormed(value, token, norm(ip), expiry, now, sign)
      ensures Validate(value, ip, now, sign, norm)
    {
      WellFormedIsAccepted(value, token, ip, expiry, now, sign, norm);
    }
    forall token, ip', expiry, now', token', ip'', expiry', now'' |
      && WellFormed(value, token, ip', expiry, now', sign)
      && WellFormed(value, token', ip'', expiry', now'', sign)
      ensures token == token' && ip' == ip'' && expiry == expiry'
    {
      var prefix, prefix' := Prefix(token, ip', expiry), Prefix(token', ip'', expiry');
      PrefixIs(token, ip', expiry);
      PrefixIs(token', ip'', expiry');
      SplitLastCuts(prefix, sign(prefix), BAR);
      SplitLastCuts(prefix', sign(prefix'), BAR);
      assert [prefix, sign(prefix)][0] == [prefix', sign(prefix')][0];
      FieldsAreUnique(token, ip', expiry, token', ip'', expiry');
    }
  }

  /**
   * The round trip, for every token and address. An issued cookie is accepted
   * exactly when neither token nor address holds a bar, its expiry has not passed
   * and the two addresses have the same canonical form.
   */
  lemma RoundTrip(token: string, ip: string, ttl: int, issued: real, ip': string, now: real, sign: Sign, norm: Normalise)
    requires IsHexDigest(sign)
    ensures Validate(Issue(token, ip, ttl, issued, sign, norm), ip', now, sign, norm)
            <==> && '|' !in token
                 && '|' !in norm(ip)
                 && now <= ((if issued >= 0.0 then issued.Floor else -(-issued).Floor) + ttl) as real
                 && norm(ip') == norm(ip)
  {
    var expiry := Print(Truncate(issued) + ttl);
    ParsesPrinted(Truncate(issued) + ttl);
    PrintedHasNoBar(Truncate(issued) + ttl);
    var prefix := Prefix(token, norm(ip), expiry);
    SplitLastCuts(prefix, sign(prefix), BAR);
    if Without(token, BAR) && Without(norm(ip), BAR) {
      PrefixSplits(token, norm(ip), expiry);
    } else {
      TooManyFields(token, norm(ip), expiry);
    }
  }

  /** A bar inside a field leaves a bar in what is read as the expiry. */
  lemma TooManyFields(token: string, ip: string, expiry: string)
    requires BAR in token || BAR in ip
    ensures var fields := SplitMax(Prefix(token, ip, expiry), BAR, 3);
            |fields| == 4 && Parse(fields[3]).None?
  {
    var prefix := Prefix(token, ip, expiry);
    var t, a, e := Split(token, BAR), Split(ip, BAR), Split(expiry, BAR);
    SplitPlain(VERSION, BAR);
    assert prefix == VERSION + [BAR] + (token + [BAR] + (ip + [BAR] + expiry)) by {
      assert [ip, expiry][1..] == [expiry];
      assert Join([ip, expiry], BAR) == ip + [BAR] + expiry;
      assert [token, ip, expiry][1..] == [ip, expiry];
      assert Join([token, ip, expiry], BAR) == token + [BAR] + (ip + [BAR] + expiry);
      assert [VERSION, token, ip, expiry][1..] == [token, ip, expiry];
    }
    SplitConcat(VERSION, token + [BAR] + (ip + [BAR] + expiry), BAR);
    SplitConcat(token, ip + [BAR] + expiry, BAR);
    SplitConcat(ip, expiry, BAR);
    var pieces := Split(prefix, BAR);
    assert pieces == [VERSION] + (t + (a + e));
    if BAR in token {
      BarsMakePieces(token);
    } else {
      BarsMakePieces(ip);
    }
    var rest := Join(pieces[3..], BAR);
    assert rest == pieces[3] + [BAR] + Join(pieces[3..][1..], BAR);
    assert rest[|pieces[3]|] == BAR;
    NumbersHaveNoBar(rest);
  }

  lemma BarsMakePieces(s: string)
    requires BAR in s
    ensures |Split(s, BAR)| > 1
  {
    var pieces := Split(s, BAR);
    JoinSplit(s, BAR);
    assert pieces[0] in pieces;
  }
}
