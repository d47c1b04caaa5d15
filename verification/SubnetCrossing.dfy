/**
 * Which subnets cross the unsolved-challenge thresholds: the two loops of
 * `_detect_unsolved_challenges_by_subnet`
 * (src/django_waf/services/anomaly_detector.py) over the challenged counts per
 * address. The subnet of an address is a parameter, None for an address that
 * does not parse.
 */
module SubnetCrossing {
  import opened Wrappers

  datatype Challenged = Challenged(ip: string, count: nat)

  type SubnetOf = string -> Option<string>

  /** The challenges of a subnet, added up over its addresses. */
  ghost function Total(rows: seq<Challenged>, subnetOf: SubnetOf, subnet: string): nat {
    if rows == [] then 0
    else Total(rows[..|rows| - 1], subnetOf, subnet)
         + if subnetOf(rows[|rows| - 1].ip) == Some(subnet) then rows[|rows| - 1].count else 0
  }

  /** The addresses of a subnet. */
  ghost function Ips(rows: seq<Challenged>, subnetOf: SubnetOf, subnet: string): set<string> {
    set i | 0 <= i < |rows| && subnetOf(rows[i].ip) == Some(subnet) :: rows[i].ip
  }

  /** Enough challenges from enough addresses, none of which solved one. */
  ghost predicate Crosses(rows: seq<Challenged>, subnetOf: SubnetOf, solved: set<string>, minChallenged: nat, minIps: nat, subnet: string) {
    && Ips(rows, subnetOf, subnet) != {}
    && Total(rows, subnetOf, subnet) >= minChallenged
    && |Ips(rows, subnetOf, subnet)| >= minIps
    && Ips(rows, subnetOf, subnet) * solved == {}
  }

  /** The two dictionaries say what the rows say. */
  ghost predicate Tallied(rows: seq<Challenged>, subnetOf: SubnetOf, totals: map<string, nat>, ips: map<string, set<string>>) {
    forall subnet :: TalliedAt(rows, subnetOf, totals, ips, subnet)
  }

  ghost predicate TalliedAt(rows: seq<Challenged>, subnetOf: SubnetOf, totals: map<string, nat>, ips: map<string, set<string>>, subnet: string) {
    && (subnet in totals <==> subnet in ips)
    && Ips(rows, subnetOf, subnet) == (if subnet in ips then ips[subnet] else {})
    && Total(rows, subnetOf, subnet) == (if subnet in totals then totals[subnet] else 0)
    && (subnet in ips ==> ips[subnet] != {})
  }

  method Aggregate(rows: seq<Challenged>, subnetOf: SubnetOf) returns (totals: map<string, nat>, ips: map<string, set<string>>)
    ensures Tallied(rows, subnetOf, totals, ips)
  {
    totals, ips := map[], map[];
    var i := 0;
    while i < |rows|
      invariant 0 <= i <= |rows|
      invariant Tallied(rows[..i], subnetOf, totals, ips)
    {
      var subnet := subnetOf(rows[i].ip);
      if subnet.Some? {
        var s := subnet.value;
        assert TalliedAt(rows[..i], subnetOf, totals, ips, s);
        var total := (if s in totals then totals[s] else 0) + rows[i].count;
        var members := (if s in ips then ips[s] else {}) + {rows[i].ip};
        TallyStep(rows, subnetOf, i, totals, ips, s, total, members);
        totals, ips := totals[s := total], ips[s := members];
      } else {
        TallySkip(rows, subnetOf, i, totals, ips);
      }
      i := i + 1;
    }
    assert rows[..i] == rows;
  }

  lemma TallyStep(rows: seq<Challenged>, subnetOf: SubnetOf, i: nat, totals: map<string, nat>, ips: map<string, set<string>>,
                  s: string, total: nat, members: set<string>)
    requires i < |rows| && Tallied(rows[..i], subnetOf, totals, ips) && subnetOf(rows[i].ip) == Some(s)
    requires total == (if s in totals then totals[s] else 0) + rows[i].count
    requires members == (if s in ips then ips[s] else {}) + {rows[i].ip}
    ensures Tallied(rows[..i + 1], subnetOf, totals[s := total], ips[s := members])
  {
    OneMoreRow(rows, subnetOf, i);
    var more, totals', ips' := rows[..i + 1], totals[s := total], ips[s := members];
    forall subnet ensures TalliedAt(more, subnetOf, totals', ips', subnet) {
      assert TalliedAt(rows[..i], subnetOf, totals, ips, subnet);
    }
  }

  lemma TallySkip(rows: seq<Challenged>, subnetOf: SubnetOf, i: nat, totals: map<string, nat>, ips: map<string, set<string>>)
    requires i < |rows| && Tallied(rows[..i], subnetOf, totals, ips) && subnetOf(rows[i].ip) == None
    ensures Tallied(rows[..i + 1], subnetOf, totals, ips)
  {
    OneMoreRow(rows, subnetOf, i);
    var more := rows[..i + 1];
    forall subnet ensures TalliedAt(more, subnetOf, totals, ips, subnet) {
      assert TalliedAt(rows[..i], subnetOf, totals, ips, subnet);
    }
  }

  lemma OneMoreRow(rows: seq<Challenged>, subnetOf: SubnetOf, i: nat)
    requires i < |rows|
    ensures forall subnet :: Total(rows[..i + 1], subnetOf, subnet) ==
              Total(rows[..i], subnetOf, subnet) + if subnetOf(rows[i].ip) == Some(subnet) then rows[i].count else 0
    ensures forall subnet :: Ips(rows[..i + 1], subnetOf, subnet) ==
              Ips(rows[..i], subnetOf, subnet) + if subnetOf(rows[i].ip) == Some(subnet) then {rows[i].ip} else {}
  {
    assert rows[..i + 1][..i] == rows[..i];
    forall subnet ensures Ips(rows[..i + 1], subnetOf, subnet) ==
              Ips(rows[..i], subnetOf, subnet) + if subnetOf(rows[i].ip) == Some(subnet) then {rows[i].ip} else {}
    {
      var all := Ips(rows[..i + 1], subnetOf, subnet);
      var one := if subnetOf(rows[i].ip) == Some(subnet) then {rows[i].ip} else {};
      var was := Ips(rows[..i], subnetOf, subnet);
      forall ip | ip in was ensures ip in all {
        var k :| 0 <= k < i && subnetOf(rows[..i][k].ip) == Some(subnet) && rows[..i][k].ip == ip;
        assert rows[..i + 1][k] == rows[..i][k];
      }
      forall ip | ip in all ensures ip in was + one {
        var k :| 0 <= k < i + 1 && subnetOf(rows[..i + 1][k].ip) == Some(subnet) && rows[..i + 1][k].ip == ip;
        assert k < i ==> rows[..i][k] == rows[..i + 1][k];
      }
      if subnetOf(rows[i].ip) == Some(subnet) {
        assert rows[..i + 1][i] == rows[i];
      }
    }
  }

  ghost predicate Selected(totals: map<string, nat>, ips: map<string, set<string>>, solved: set<string>, minChallenged: nat, minIps: nat, subnet: string) {
    && subnet in totals && subnet in ips
    && totals[subnet] >= minChallenged && |ips[subnet]| >= minIps && ips[subnet] * solved == {}
  }

  /** The second loop: the subnets that get a rule. */
  method Select(totals: map<string, nat>, ips: map<string, set<string>>, solved: set<string>, minChallenged: nat, minIps: nat)
      returns (crossing: set<string>)
    requires totals.Keys <= ips.Keys
    ensures forall subnet :: subnet in crossing <==> Selected(totals, ips, solved, minChallenged, minIps, subnet)
  {
    crossing := {};
    var todo := totals.Keys;
    while todo != {}
      invariant todo <= totals.Keys
      invariant forall subnet :: subnet in crossing <==> subnet !in todo && Selected(totals, ips, solved, minChallenged, minIps, subnet)
      decreases |todo|
    {
      var subnet :| subnet in todo;
      todo := todo - {subnet};
      if totals[subnet] < minChallenged || |ips[subnet]| < minIps {
        continue;
      }
      if ips[subnet] * solved != {} {
        continue;
      }
      crossing := crossing + {subnet};
    }
  }

  method CrossingSubnets(rows: seq<Challenged>, subnetOf: SubnetOf, solved: set<string>, minChallenged: nat, minIps: nat)
      returns (crossing: set<string>)
    ensures forall subnet :: subnet in crossing <==> Crosses(rows, subnetOf, solved, minChallenged, minIps, subnet)
  {
    var totals, ips := Aggregate(rows, subnetOf);
    forall subnet | subnet in totals ensures subnet in ips {
      assert TalliedAt(rows, subnetOf, totals, ips, subnet);
    }
    crossing := Select(totals, ips, solved, minChallenged, minIps);
    forall subnet ensures subnet in crossing <==> Crosses(rows, subnetOf, solved, minChallenged, minIps, subnet) {
      SelectedIsCrossing(rows, subnetOf, totals, ips, solved, minChallenged, minIps, subnet);
    }
  }

  lemma SelectedIsCrossing(rows: seq<Challenged>, subnetOf: SubnetOf, totals: map<string, nat>, ips: map<string, set<string>>,
                           solved: set<string>, minChallenged: nat, minIps: nat, subnet: string)
    requires Tallied(rows, subnetOf, totals, ips)
    ensures Selected(totals, ips, solved, minChallenged, minIps, subnet) <==> Crosses(rows, subnetOf, solved, minChallenged, minIps, subnet)
  {
    assert TalliedAt(rows, subnetOf, totals, ips, subnet);
  }
}
