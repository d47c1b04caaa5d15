/**
 * Which address a request is held to come from: the direct peer, or a hop of its
 * X-Forwarded-For header.
 *
 * Address syntax and range membership are parameters; an unparsable range holds
 * no address.
 */
module ClientIp {
  import opened Text

  const COMMA: char := ','

  datatype Config = Config(
    proxies: seq<string>,
    unixSocket: bool,
    trustLeftmost: bool,
    isIp: string -> bool,
    inRange: (string, string) -> bool)

  /** `_is_trusted_proxy`. */
  predicate IsTrusted(ip: string, c: Config) {
    ip != "" && c.isIp(ip) && exists range | range in c.proxies :: c.inRange(ip, range)
  }

  /** A hop the walk stops at. */
  predicate IsClient(hop: string, c: Config) {
    hop != "" && c.isIp(hop) && !IsTrusted(hop, c)
  }

  function Stripped(hops: seq<string>): (r: seq<string>)
    ensures |r| == |hops|
    ensures forall i :: 0 <= i < |hops| ==> r[i] == Strip(hops[i])
  {
    if hops == [] then [] else [Strip(hops[0])] + Stripped(hops[1..])
  }

  function Hops(header: string): seq<string> {
    Stripped(Split(header, COMMA))
  }

  /** The loop over `reversed(hops)`. */
  function Walk(hops: seq<string>, c: Config): string {
    if hops == [] then ""
    else
      var hop := hops[|hops| - 1];
      if hop == "" || !c.isIp(hop) then Walk(hops[..|hops| - 1], c)
      else if IsTrusted(hop, c) then Walk(hops[..|hops| - 1], c)
      else hop
  }

  /** `_resolve_from_forwarded_chain`. */
  function Chain(header: string, c: Config): string {
    if header == "" then "" else Walk(Hops(header), c)
  }

  predicate PeerIsTrusted(peer: string, c: Config) {
    IsTrusted(peer, c) || (c.unixSocket && peer == "")
  }

  /** `resolve_client_ip`; an absent header is empty. */
  function Resolve(peer: string, header: string, c: Config): string {
    if PeerIsTrusted(peer, c) then
      var hop := Chain(header, c);
      if hop != "" then hop else peer
    else if c.trustLeftmost && header != "" then
      var hop := Strip(Split(header, COMMA)[0]);
      if c.isIp(hop) then hop else peer
    else peer
  }

  /***** The walk *****/

  /** The last client hop among the hops. */
  predicate IsLastClient(hops: seq<string>, k: nat, c: Config) {
    && k < |hops|
    && IsClient(hops[k], c)
    && forall j :: k < j < |hops| ==> !IsClient(hops[j], c)
  }

  /** The walk finds the rightmost valid hop outside every trusted range, and
      finds nothing only when there is none. */
  lemma {:induction false} WalkFindsLast(hops: seq<string>, c: Config)
    ensures Walk(hops, c) != "" ==> exists k: nat :: IsLastClient(hops, k, c) && hops[k] == Walk(hops, c)
    ensures Walk(hops, c) == "" <==> forall j :: 0 <= j < |hops| ==> !IsClient(hops[j], c)
  {
    if hops != [] {
      var n := |hops| - 1;
      var before := hops[..n];
      WalkFindsLast(before, c);
      if IsClient(hops[n], c) {
        assert IsLastClient(hops, n, c);
      } else {
        if Walk(before, c) != "" {
          var k: nat :| IsLastClient(before, k, c) && before[k] == Walk(before, c);
          assert IsLastClient(hops, k, c) && hops[k] == Walk(hops, c);
        }
        assert forall j :: 0 <= j < n ==> before[j] == hops[j];
      }
    }
  }

  lemma {:induction false} WalkConcat(a: seq<string>, b: seq<string>, c: Config)
    ensures Walk(a + b, c) == if Walk(b, c) != "" then Walk(b, c) else Walk(a, c)
  {
    if b == [] {
      assert a + b == a;
    } else {
      var n := |b| - 1;
      assert (a + b)[..|a + b| - 1] == a + b[..n];
      WalkConcat(a, b[..n], c);
    }
  }

  lemma {:induction false} StrippedConcat(a: seq<string>, b: seq<string>)
    ensures Stripped(a + b) == Stripped(a) + Stripped(b)
  {
  }

  lemma ChainIsWalk(header: string, c: Config)
    ensures Chain(header, c) == Walk(Hops(header), c)
  {
    if header == "" {
      assert Hops(header) == [""];
      assert [""][..0] == [];
    }
  }

  /** What the header's two sides of a comma give together. */
  lemma ChainConcat(left: string, right: string, c: Config)
    ensures Chain(left + [COMMA] + right, c)
            == if Chain(right, c) != "" then Chain(right, c) else Chain(left, c)
  {
    ChainIsWalk(left + [COMMA] + right, c);
    ChainIsWalk(left, c);
    ChainIsWalk(right, c);
    SplitConcat(left, right, COMMA);
    StrippedConcat(Split(left, COMMA), Split(right, COMMA));
    WalkConcat(Hops(left), Hops(right), c);
  }

  /***** The resolved address *****/

  ghost predicate NamesClient(header: string, c: Config) {
    exists j :: 0 <= j < |Hops(header)| && IsClient(Hops(header)[j], c)
  }

  /** Behind a trusted peer the resolved address is the rightmost valid untrusted
      hop of the header, and the peer itself exactly when there is no such hop. */
  lemma TrustedPeerResolution(peer: string, header: string, c: Config)
    requires PeerIsTrusted(peer, c)
    ensures if NamesClient(header, c)
            then exists k: nat :: IsLastClient(Hops(header), k, c) && Resolve(peer, header, c) == Hops(header)[k]
            else Resolve(peer, header, c) == peer
  {
    ChainIsWalk(header, c);
    WalkFindsLast(Hops(header), c);
  }

  /** Suffix dependence: once the tail names a client, nothing put in front of it
      with a comma can change the answer; if it names none, the front decides. */
  lemma SuffixDecides(peer: string, front: string, tail: string, c: Config)
    requires PeerIsTrusted(peer, c)
    ensures Resolve(peer, front + [COMMA] + tail, c)
            == if NamesClient(tail, c) then Resolve(peer, tail, c) else Resolve(peer, front, c)
  {
    ChainConcat(front, tail, c);
    ChainIsWalk(tail, c);
    WalkFindsLast(Hops(tail), c);
  }

  /** What a client sends ahead of the address its first trusted proxy appends
      never matters, however many trusted proxies append after it. */
  lemma {:induction false} SpoofedHopsAreIgnored(peer: string, sent: string, client: string, proxies: seq<string>, c: Config)
    requires PeerIsTrusted(peer, c)
    requires Without(client, COMMA) && IsClient(Strip(client), c)
    requires forall p :: p in proxies ==> Without(p, COMMA) && IsTrusted(Strip(p), c)
    ensures Resolve(peer, Join([sent, client] + proxies, COMMA), c) == Strip(client)
    decreases |proxies|
  {
    var all := [sent, client] + proxies;
    if proxies == [] {
      assert all[1..] == [client];
      SplitPlain(client, COMMA);
      assert Hops(client)[0] == Strip(client);
      ChainConcat(sent, client, c);
      ChainIsWalk(client, c);
    } else {
      var n := |proxies| - 1;
      var last, rest := proxies[n], proxies[..n];
      assert proxies == rest + [last] && last in proxies;
      SpoofedHopsAreIgnored(peer, sent, client, rest, c);
      assert all == ([sent, client] + rest) + [last];
      JoinAppends([sent, client] + rest, last, COMMA);
      SplitPlain(last, COMMA);
      assert Hops(last) == [Strip(last)];
      SuffixDecides(peer, Join([sent, client] + rest, COMMA), last, c);
    }
  }

  /** The part of a header before its first comma, or all of it. */
  function FirstHop(header: string): (hop: string)
    ensures Without(hop, COMMA)
    ensures header == hop || (hop + [COMMA] <= header)
  {
    if header == "" || header[0] == COMMA then "" else
      var rest := FirstHop(header[1..]);
      assert header == [header[0]] + header[1..];
      [header[0]] + rest
  }

  lemma {:induction false} SplitStartsWithFirstHop(header: string)
    ensures Split(header, COMMA)[0] == FirstHop(header)
  {
    if header != "" && header[0] != COMMA {
      SplitStartsWithFirstHop(header[1..]);
    }
  }

  /** The peer is believed: it is an address in a configured range, or it is a unix
      socket's empty one and those are believed. */
  ghost predicate Believed(peer: string, c: Config) {
    || (peer != "" && c.isIp(peer) && exists range :: range in c.proxies && c.inRange(peer, range))
    || (peer == "" && c.unixSocket)
  }

  /** A hop is taken for the client: it is an address outside every configured
      range. */
  ghost predicate IsOutside(hop: string, c: Config) {
    hop != "" && c.isIp(hop) && forall range :: range in c.proxies ==> !c.inRange(hop, range)
  }

  /** Hop k of the header, as it is read. */
  function Hop(header: string, k: nat): string
    requires k < |Split(header, COMMA)|
  {
    Strip(Split(header, COMMA)[k])
  }

  ghost predicate IsRightmost(header: string, k: nat, c: Config) {
    && k < |Split(header, COMMA)| && IsOutside(Hop(header, k), c)
    && forall j :: k < j < |Split(header, COMMA)| ==> !IsOutside(Hop(header, j), c)
  }

  /**
   * The resolved address, for every peer, header and setting. A believed peer is
   * replaced by the rightmost hop outside every range, if the header has one. An
   * unbelieved peer is the answer itself, whatever the header says, unless the
   * legacy setting is on and the header's first hop is an address.
   */
  lemma ResolvedAddress(peer: string, header: string, c: Config)
    ensures var answer := Resolve(peer, header, c);
            if Believed(peer, c) then
              if exists k: nat :: IsRightmost(header, k, c)
              then exists k: nat :: IsRightmost(header, k, c) && answer == Hop(header, k)
              else answer == peer
            else if c.trustLeftmost && header != "" && c.isIp(Strip(FirstHop(header))) then answer == Strip(FirstHop(header))
            else answer == peer
  {
    SplitStartsWithFirstHop(header);
    assert Believed(peer, c) <==> PeerIsTrusted(peer, c);
    if Believed(peer, c) {
      TrustedPeerResolution(peer, header, c);
      OutsideIsClient(header, c);
      if NamesClient(header, c) {
        var k: nat :| IsLastClient(Hops(header), k, c) && Resolve(peer, header, c) == Hops(header)[k];
        assert IsRightmost(header, k, c);
      } else {
        assert forall k: nat :: !IsRightmost(header, k, c);
      }
    }
  }

  lemma OutsideIsClient(header: string, c: Config)
    ensures |Hops(header)| == |Split(header, COMMA)|
    ensures forall k :: 0 <= k < |Hops(header)| ==> Hops(header)[k] == Hop(header, k) && (IsOutside(Hop(header, k), c) <==> IsClient(Hops(header)[k], c))
  {
  }

  /** With no legacy setting an unbelieved peer cannot say it is someone else. */
  lemma HeaderIsIgnored(peer: string, header: string, c: Config)
    requires !Believed(peer, c) && !c.trustLeftmost
    ensures Resolve(peer, header, c) == peer
  {
    ResolvedAddress(peer, header, c);
  }

  /** The legacy opt-in depends on the header's first hop alone: what follows the
      first comma is ignored. */
  lemma LeftmostDecides(peer: string, first: string, tail: string, c: Config)
    requires !PeerIsTrusted(peer, c) && c.trustLeftmost && Without(first, COMMA)
    ensures Resolve(peer, first + [COMMA] + tail, c)
            == if c.isIp(Strip(first)) then Strip(first) else peer
  {
    SplitConcat(first, tail, COMMA);
    SplitPlain(first, COMMA);
  }
}
