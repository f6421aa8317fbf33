/**
 The reachability probe of `Create` (rackhd.go): candidates are tried in
 order on `ip:port`, and the first one that accepts a connection is chosen.
 The TCP dial with its timeout is an oracle, `reachable`, on the address text.
 */
module Probe {
  import opened Wrappers
  import opened Strings

  /** `ip + ":" + strconv.Itoa(port)`; `fmt`'s "%s:%d" prints the same text. */
  function HostPort(ip: string, port: int): string {
    ip + ":" + Itoa(port)
  }

  lemma {:induction false} LastColonBeforeSuffix(a: string, b: string)
    requires |a| > 0 && a[|a| - 1] == ':'
    requires ':' !in b
    ensures LastIndexOf(a + b, ':') == Some(|a| - 1)
    decreases |b|
  {
    if |b| == 0 {
      assert a + b == a;
    } else {
      assert (a + b)[..|a + b| - 1] == a + b[..|b| - 1];
      assert (a + b)[|a + b| - 1] == b[|b| - 1];
      LastColonBeforeSuffix(a, b[..|b| - 1]);
    }
  }

  /** Splits an address at its last ':' into the host and a decimal port. */
  function SplitHostPort(addr: string): Option<(string, int)> {
    match LastIndexOf(addr, ':')
    case None => None
    case Some(i) =>
      match ParseInt(addr[i + 1..])
      case None => None
      case Some(port) => Some((addr[..i], port))
  }

  /** The probed address names exactly the candidate and the port it was built from. */
  lemma HostPortRoundTrip(ip: string, port: int)
    ensures SplitHostPort(HostPort(ip, port)) == Some((ip, port))
  {
    var addr := HostPort(ip, port);
    assert addr[|ip| + 1..] == Itoa(port);
    assert addr[..|ip|] == ip;
    LastColonBeforeSuffix(ip + ":", Itoa(port));
    ItoaRoundTrip(port);
  }

  /** `probed` holds the addresses of candidates `from..n`, in order. */
  predicate ProbedRange(probed: seq<string>, ips: seq<string>, port: int, from: nat, n: nat) {
    && from <= n <= |ips|
    && |probed| == n - from
    && forall i :: from <= i < n ==> probed[i - from] == HostPort(ips[i], port)
  }

  /** The addresses of the first `n` candidates, as the loop probes them. */
  predicate ProbedPrefix(probed: seq<string>, ips: seq<string>, port: int, n: nat) {
    ProbedRange(probed, ips, port, 0, n)
  }

  lemma ProbedRangeCons(probed: seq<string>, ips: seq<string>, port: int, from: nat, n: nat)
    requires from < |ips|
    requires ProbedRange(probed, ips, port, from + 1, n)
    ensures ProbedRange([HostPort(ips[from], port)] + probed, ips, port, from, n)
  {
    var all := [HostPort(ips[from], port)] + probed;
    forall i | from <= i < n
      ensures all[i - from] == HostPort(ips[i], port)
    {
      if i > from {
        assert all[i - from] == probed[i - (from + 1)];
      }
    }
  }

  /** Which candidate was chosen (its index), and the addresses probed, in order. */
  datatype ProbeResult = ProbeResult(chosen: Option<nat>, probed: seq<string>)

  /** The probe loop from candidate `from` on. */
  function ProbeFrom(ips: seq<string>, port: int, reachable: string -> bool, from: nat): (r: ProbeResult)
    requires from <= |ips|
    ensures r.chosen.Some? ==>
      && from <= r.chosen.value < |ips|
      && reachable(HostPort(ips[r.chosen.value], port))
      && (forall i :: from <= i < r.chosen.value ==> !reachable(HostPort(ips[i], port)))
      && ProbedRange(r.probed, ips, port, from, r.chosen.value + 1)
    ensures r.chosen.None? ==>
      && (forall i :: from <= i < |ips| ==> !reachable(HostPort(ips[i], port)))
      && ProbedRange(r.probed, ips, port, from, |ips|)
    decreases |ips| - from
  {
    if from == |ips| then ProbeResult(None, [])
    else
      var addr := HostPort(ips[from], port);
      if reachable(addr) then ProbeResult(Some(from), [addr])
      else
        var rest := ProbeFrom(ips, port, reachable, from + 1);
        var n := if rest.chosen.Some? then rest.chosen.value + 1 else |ips|;
        ProbedRangeCons(rest.probed, ips, port, from, n);
        ProbeResult(rest.chosen, [addr] + rest.probed)
  }

  /**
   The probe loop with its `break`. Either candidate `k` is chosen, when it is
   reachable, every earlier one is not, and exactly candidates `0..k` were
   probed; or none is chosen, every candidate was probed and none is reachable.
   */
  function FirstReachable(ips: seq<string>, port: int, reachable: string -> bool): (r: ProbeResult)
    ensures r.chosen.Some? ==>
      && r.chosen.value < |ips|
      && reachable(HostPort(ips[r.chosen.value], port))
      && (forall i :: 0 <= i < r.chosen.value ==> !reachable(HostPort(ips[i], port)))
      && ProbedPrefix(r.probed, ips, port, r.chosen.value + 1)
    ensures r.chosen.None? ==>
      && (forall i :: 0 <= i < |ips| ==> !reachable(HostPort(ips[i], port)))
      && ProbedPrefix(r.probed, ips, port, |ips|)
  {
    ProbeFrom(ips, port, reachable, 0)
  }

  /** The probe result is determined by the first reachable candidate. */
  lemma FirstReachableAt(ips: seq<string>, port: int, reachable: string -> bool, k: nat)
    requires k < |ips|
    requires reachable(HostPort(ips[k], port))
    requires forall i :: 0 <= i < k ==> !reachable(HostPort(ips[i], port))
    ensures FirstReachable(ips, port, reachable).chosen == Some(k)
    ensures ProbedPrefix(FirstReachable(ips, port, reachable).probed, ips, port, k + 1)
  {
    var r := FirstReachable(ips, port, reachable);
    if r.chosen.None? {
      assert false;
    } else if r.chosen.value < k {
      assert false;
    } else if r.chosen.value > k {
      assert false;
    }
  }

  /** The chosen candidate depends only on the candidates up to it: appending more changes nothing. */
  lemma FirstReachableIgnoresLater(ips: seq<string>, later: seq<string>, port: int, reachable: string -> bool)
    requires FirstReachable(ips, port, reachable).chosen.Some?
    ensures FirstReachable(ips + later, port, reachable) == FirstReachable(ips, port, reachable)
  {
    var r := FirstReachable(ips, port, reachable);
    var k := r.chosen.value;
    var all := ips + later;
    assert forall i :: 0 <= i <= k ==> all[i] == ips[i];
    FirstReachableAt(all, port, reachable, k);
    var r' := FirstReachable(all, port, reachable);
    assert forall i :: 0 <= i <= k ==> r'.probed[i] == HostPort(ips[i], port) == r.probed[i];
    assert r'.probed == r.probed;
  }
}
