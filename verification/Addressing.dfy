/** Subnets and ring addresses (scheduler.py: _next_subnet, _assign_ips; wg_server.py: server_ip). */
module Addressing {
  import opened Basics
  import opened Text

  const BASE := "10.23"

  /** The candidates are BASE.1.0/24 to BASE.255.0/24. */
  const LAST_THIRD: nat := 255

  function SubnetText(third: nat): string {
    BASE + "." + Dec(third) + ".0/24"
  }

  function HostText(third: nat, host: nat): string {
    BASE + "." + Dec(third) + "." + Dec(host)
  }

  /** _assign_ips: the third label of the subnet text, then host 1, 2, ..., n. */
  function AssignIps(subnet: string, n: nat): (ips: seq<string>)
    requires |Split(subnet)| > 2
    ensures |ips| == n
  {
    seq(n, i requires 0 <= i < n => BASE + "." + Split(subnet)[2] + "." + Dec(i + 1))
  }

  /** The subnet an assigned address stands for, when it has four labels. */
  function SubnetOfIp(ip: string): Option<string> {
    var parts := Split(ip);
    if |parts| == 4 then Some(parts[0] + "." + parts[1] + "." + parts[2] + ".0/24") else None
  }

  /** server_ip. */
  function ServerIp(subnet: string, offset: nat): string
    requires |Split(subnet)| > 2
  {
    var parts := Split(subnet);
    parts[0] + "." + parts[1] + "." + parts[2] + "." + Dec(offset)
  }

  function Pool(): set<string> {
    set third | 1 <= third <= LAST_THIRD :: SubnetText(third)
  }

  // ---- Texts and labels ----

  lemma DecHasNoDot(n: nat)
    ensures '.' !in Dec(n)
  {
  }

  lemma Regroup(third: string, tail: string)
    ensures BASE + "." + third + "." + tail == "10" + "." + ("23" + "." + (third + "." + tail))
  {
    assert BASE == "10" + "." + "23";
  }

  lemma SplitLabels(third: nat, tail: string)
    requires '.' !in tail
    ensures Split(BASE + "." + Dec(third) + "." + tail) == ["10", "23", Dec(third), tail]
  {
    var digits := Dec(third);
    DecHasNoDot(third);
    Regroup(digits, tail);
    SplitFour("10", "23", digits, tail);
  }

  lemma SubnetLabels(third: nat)
    ensures Split(SubnetText(third)) == ["10", "23", Dec(third), "0/24"]
  {
    SplitLabels(third, "0/24");
    assert SubnetText(third) == BASE + "." + Dec(third) + "." + "0/24";
  }

  lemma HostLabels(third: nat, host: nat)
    ensures Split(HostText(third, host)) == ["10", "23", Dec(third), Dec(host)]
  {
    DecHasNoDot(host);
    SplitLabels(third, Dec(host));
  }

  lemma SubnetInjective(s: nat, t: nat)
    requires SubnetText(s) == SubnetText(t)
    ensures s == t
  {
    SubnetLabels(s);
    SubnetLabels(t);
    DecInjective(s, t);
  }

  /** No two hosts of the pool share an address. */
  lemma HostInjective(s: nat, i: nat, t: nat, j: nat)
    requires HostText(s, i) == HostText(t, j)
    ensures s == t && i == j
  {
    HostLabels(s, i);
    HostLabels(t, j);
    DecInjective(s, t);
    DecInjective(i, j);
  }

  /** Splitting the allocated subnet puts its members into it, host 1 first. */
  lemma AssignedHosts(third: nat, n: nat)
    ensures |Split(SubnetText(third))| > 2
    ensures AssignIps(SubnetText(third), n) == seq(n, i requires 0 <= i < n => HostText(third, i + 1))
  {
    SubnetLabels(third);
  }

  /** Splitting an assigned address recovers the subnet it was allocated from. */
  lemma SubnetRecovered(third: nat, host: nat)
    ensures SubnetOfIp(HostText(third, host)) == Some(SubnetText(third))
  {
    HostLabels(third, host);
    assert "10" + "." + "23" + "." + Dec(third) + ".0/24" == SubnetText(third);
  }

  /** The server's address meets a member's exactly when the member is host number `offset`. */
  lemma ServerCollision(third: nat, host: nat, offset: nat)
    ensures |Split(SubnetText(third))| > 2
    ensures ServerIp(SubnetText(third), offset) == HostText(third, host) <==> host == offset
  {
    SubnetLabels(third);
    assert "10" + "." + "23" + "." + Dec(third) + "." + Dec(offset) == HostText(third, offset);
    if ServerIp(SubnetText(third), offset) == HostText(third, host) {
      HostInjective(third, offset, third, host);
    }
  }

  // ---- Allocation ----

  /** The scan of _next_subnet: the least candidate that is not in use; None is the RuntimeError. */
  function FirstFree(used: set<string>, third: nat): Option<string>
    requires third <= LAST_THIRD + 1
    decreases LAST_THIRD + 1 - third
  {
    if third == LAST_THIRD + 1 then None
    else if SubnetText(third) !in used then Some(SubnetText(third))
    else FirstFree(used, third + 1)
  }

  lemma {:induction false} FirstFreeIsLeast(used: set<string>, from: nat)
    requires from <= LAST_THIRD + 1
    ensures FirstFree(used, from).None? <==> forall t :: from <= t <= LAST_THIRD ==> SubnetText(t) in used
    ensures FirstFree(used, from).Some? ==>
              exists t :: from <= t <= LAST_THIRD && FirstFree(used, from) == Some(SubnetText(t)) &&
                          SubnetText(t) !in used && forall s :: from <= s < t ==> SubnetText(s) in used
    decreases LAST_THIRD + 1 - from
  {
    hide SubnetText;
    if from <= LAST_THIRD {
      if SubnetText(from) in used {
        FirstFreeIsLeast(used, from + 1);
        if FirstFree(used, from).Some? {
          var t :| from + 1 <= t <= LAST_THIRD && FirstFree(used, from + 1) == Some(SubnetText(t)) &&
                   SubnetText(t) !in used && forall s :: from + 1 <= s < t ==> SubnetText(s) in used;
          assert forall s :: from <= s < t ==> SubnetText(s) in used;
        }
      } else {
        assert FirstFree(used, from) == Some(SubnetText(from));
      }
    }
  }

  lemma {:induction false} PoolPrefixSize(n: nat)
    ensures |set t: nat | 1 <= t <= n :: SubnetText(t)| == n
  {
    var all := set t: nat | 1 <= t <= n :: SubnetText(t);
    if n == 0 {
      assert all == {};
    } else {
      PoolPrefixSize(n - 1);
      var fewer := set t: nat | 1 <= t <= n - 1 :: SubnetText(t);
      assert all == fewer + {SubnetText(n)};
      forall t: nat | SubnetText(t) == SubnetText(n) ensures t == n {
        SubnetInjective(t, n);
      }
      assert SubnetText(n) !in fewer;
    }
  }

  lemma PoolSize()
    ensures |Pool()| == LAST_THIRD
  {
    PoolPrefixSize(LAST_THIRD);
    assert Pool() == set t: nat | 1 <= t <= LAST_THIRD :: SubnetText(t);
  }

  /** Pigeonhole: allocation fails exactly when the whole pool is in use, which takes 255 subnets. */
  lemma AllocationFailsWhenPoolFull(used: set<string>)
    ensures FirstFree(used, 1).None? <==> Pool() <= used
    ensures |used| < LAST_THIRD ==> FirstFree(used, 1).Some?
    ensures FirstFree(used, 1).Some? ==> FirstFree(used, 1).value in Pool() - used
  {
    FirstFreeIsLeast(used, 1);
    PoolSize();
    if Pool() <= used {
      SubsetCardinality(Pool(), used);
      assert forall t :: 1 <= t <= LAST_THIRD ==> SubnetText(t) in Pool();
    }
  }
}
