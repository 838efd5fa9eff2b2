/**
 * `wait_lxc_ipv4_from_interfaces` (blueprints/admin.py, utils/interfaces.py):
 * poll a container's network interfaces until one carries a valid IPv4
 * address, looking at interfaces named "eth0" first.
 *
 * As for `wait_task`, `replies` are the answers to the polls that start
 * before the deadline; running out of them is the timeout.
 */
module Discovery {
  import opened Wrappers
  import Ipv4
  import Text

  /** One element of a list-valued "inet": a string, or any other JSON value. */
  datatype Item = Str(s: string) | NotStr

  /** The "inet" entry of an interface: a string, a list, or missing / of another type. */
  datatype Inet = Single(s: string) | Many(items: seq<Item>) | NoInet

  /** An interface record; `name` is `None` when the key is missing or not a string. */
  datatype Nic = Nic(name: Option<string>, inet: Inet)

  /** One answer of `nodes(node).lxc(vmid).interfaces.get()`. */
  datatype InterfacesReply = Interfaces(nics: seq<Nic>) | NotAList | QueryError

  /** The sort key of `sorted(ifaces, key=lambda x: 0 if x.get("name") == "eth0" else 1)`. */
  function Rank(n: Nic): nat {
    if n.name == Some("eth0") then 0 else 1
  }

  /** The interfaces of rank `k`, in their original order. */
  function OfRank(nics: seq<Nic>, k: nat): (r: seq<Nic>)
    ensures forall i :: 0 <= i < |r| ==> Rank(r[i]) == k
  {
    if nics == [] then []
    else (if Rank(nics[0]) == k then [nics[0]] else []) + OfRank(nics[1..], k)
  }

  /** The order `sorted` gives: a stable sort on the key, so eth0 first, the rest in place. */
  function Eth0First(nics: seq<Nic>): seq<Nic> {
    OfRank(nics, 0) + OfRank(nics, 1)
  }

  /** The address an interface offers: a valid string "inet", or the first valid string of a list. */
  function Candidate(nic: Nic): Option<string> {
    match nic.inet
    case Single(s) => if Ipv4.IsValid(s) then Some(Ipv4.Normalize(s)) else None
    case Many(items) => FromItems(items)
    case NoInet => None
  }

  function FromItems(items: seq<Item>): Option<string> {
    if items == [] then None
    else if items[0].Str? && Ipv4.IsValid(items[0].s) then Some(Ipv4.Normalize(items[0].s))
    else FromItems(items[1..])
  }

  /**
   * The loop over interfaces with its early return: the first address
   * `offer` reads from an interface, in the given order.  The discovery
   * loop uses it with `offer` = `Candidate`; the ordering lemmas below hold
   * for any reading.
   */
  function FirstOffered(nics: seq<Nic>, offer: Nic -> Option<string>): Option<string> {
    if nics == [] then None
    else if offer(nics[0]).Some? then offer(nics[0])
    else FirstOffered(nics[1..], offer)
  }

  /** What one poll that returned a list selects. */
  function Select(nics: seq<Nic>): Option<string> {
    FirstOffered(Eth0First(nics), Candidate)
  }

  /** How `wait_lxc_ipv4_from_interfaces` ends. */
  datatype Discovered =
    | Found(ip: string)   // returns the address
    | DhcpTimeout         // "IP DHCP non trovato"
    | QueryFailed         // the interfaces call's own exception propagates

  datatype DiscoveryRun = DiscoveryRun(outcome: Discovered, polls: nat)

  /** A reply after which the loop sleeps and polls again. */
  predicate NoAddressYet(r: InterfacesReply) {
    r.NotAList? || (r.Interfaces? && Select(r.nics).None?)
  }

  /** What the loop does with `replies`: its outcome and how many polls it made. */
  function Wait(replies: seq<InterfacesReply>): (run: DiscoveryRun)
    ensures run.polls <= |replies|
  {
    if replies == [] then DiscoveryRun(DhcpTimeout, 0)
    else if replies[0].QueryError? then DiscoveryRun(QueryFailed, 1)
    else if replies[0].Interfaces? && Select(replies[0].nics).Some? then
      DiscoveryRun(Found(Select(replies[0].nics).value), 1)
    else
      var rest := Wait(replies[1..]);
      DiscoveryRun(rest.outcome, rest.polls + 1)
  }

  /** The deadline loop; each list-valued reply is scanned by `ScanNics`. */
  method WaitIpv4(replies: seq<InterfacesReply>) returns (outcome: Discovered, polls: nat)
    ensures DiscoveryRun(outcome, polls) == Wait(replies)
  {
    var i := 0;
    while i < |replies|
      invariant 0 <= i <= |replies|
      invariant Wait(replies) == DiscoveryRun(Wait(replies[i..]).outcome, Wait(replies[i..]).polls + i)
    {
      assert replies[i..][1..] == replies[i + 1..];
      var reply := replies[i];
      if reply.QueryError? {
        return QueryFailed, i + 1;
      }
      if reply.Interfaces? {
        var found := ScanNics(reply.nics);
        if found.Some? {
          return Found(found.value), i + 1;
        }
      }
      i := i + 1;
    }
    assert replies[i..] == [];
    return DhcpTimeout, i;
  }

  /** The scan of one list of interfaces, eth0 first. */
  method ScanNics(nics: seq<Nic>) returns (found: Option<string>)
    ensures found == Select(nics)
  {
    var order := Eth0First(nics);
    for k := 0 to |order|
      invariant FirstOffered(order[k..], Candidate) == Select(nics)
    {
      FirstOfferedStep(order, k, Candidate);
      found := ScanNic(order[k]);
      if found.Some? {
        return;
      }
    }
    assert order[|order|..] == [];
    return None;
  }

  /** The address one interface offers, if any. */
  method ScanNic(nic: Nic) returns (found: Option<string>)
    ensures found == Candidate(nic)
  {
    if nic.inet.Single? && Ipv4.IsValid(nic.inet.s) {
      return Some(Ipv4.Normalize(nic.inet.s));
    }
    found := None;
    if nic.inet.Many? {
      found := ScanItems(nic.inet.items);
    }
  }

  /** The scan of a list-valued "inet". */
  method ScanItems(items: seq<Item>) returns (found: Option<string>)
    ensures found == FromItems(items)
  {
    for m := 0 to |items|
      invariant FromItems(items[m..]) == FromItems(items)
    {
      assert items[m..][1..] == items[m + 1..];
      if items[m].Str? && Ipv4.IsValid(items[m].s) {
        return Some(Ipv4.Normalize(items[m].s));
      }
    }
    assert items[|items|..] == [];
    return None;
  }

  // ------------------------------------------------------------- lemmas

  /** An address is only ever taken from a valid `inet`, and taken normalised. */
  predicate Clean(ip: string) {
    Ipv4.IsValid(ip) && Ipv4.Normalize(ip) == ip
  }

  lemma {:induction false} FromItemsClean(items: seq<Item>)
    ensures FromItems(items).Some? ==> Clean(FromItems(items).value)
  {
    if items != [] {
      if items[0].Str? && Ipv4.IsValid(items[0].s) {
        Ipv4.NormalizePreservesValid(items[0].s);
      } else {
        FromItemsClean(items[1..]);
      }
    }
  }

  lemma CandidateClean(nic: Nic)
    ensures Candidate(nic).Some? ==> Clean(Candidate(nic).value)
  {
    match nic.inet
    case Single(s) =>
      if Ipv4.IsValid(s) {
        Ipv4.NormalizePreservesValid(s);
      }
    case Many(items) => FromItemsClean(items);
    case NoInet =>
  }

  lemma {:induction false} FirstCandidateClean(nics: seq<Nic>)
    ensures FirstOffered(nics, Candidate).Some? ==> Clean(FirstOffered(nics, Candidate).value)
  {
    if nics != [] {
      CandidateClean(nics[0]);
      FirstCandidateClean(nics[1..]);
    }
  }

  lemma {:induction false} WaitClean(replies: seq<InterfacesReply>)
    ensures Wait(replies).outcome.Found? ==> Clean(Wait(replies).outcome.ip)
  {
    if replies != [] {
      if replies[0].Interfaces? {
        FirstCandidateClean(Eth0First(replies[0].nics));
      }
      WaitClean(replies[1..]);
    }
  }

  lemma {:induction false} OfRankAppend(a: seq<Nic>, b: seq<Nic>, k: nat)
    ensures OfRank(a + b, k) == OfRank(a, k) + OfRank(b, k)
  {
    if a != [] {
      var head := if Rank(a[0]) == k then [a[0]] else [];
      assert (a + b)[0] == a[0];
      assert (a + b)[1..] == a[1..] + b;
      OfRankAppend(a[1..], b, k);
      calc {
        OfRank(a + b, k);
        head + OfRank(a[1..] + b, k);
        head + (OfRank(a[1..], k) + OfRank(b, k));
        (head + OfRank(a[1..], k)) + OfRank(b, k);
      }
    } else {
      assert a + b == b;
    }
  }

  lemma {:induction false} OfRankOfRank(nics: seq<Nic>, k: nat, k': nat)
    ensures OfRank(OfRank(nics, k), k') == if k == k' then OfRank(nics, k) else []
  {
    if nics != [] {
      var head := if Rank(nics[0]) == k then [nics[0]] else [];
      OfRankAppend(head, OfRank(nics[1..], k), k');
      OfRankOfRank(nics[1..], k, k');
      if head != [] {
        assert OfRank(head, k') == (if k == k' then head else []) by {
          assert head[1..] == [];
        }
      }
    }
  }

  lemma {:induction false} OfRankSplitsMultiset(nics: seq<Nic>)
    ensures multiset(OfRank(nics, 0)) + multiset(OfRank(nics, 1)) == multiset(nics)
  {
    if nics != [] {
      OfRankSplitsMultiset(nics[1..]);
      assert nics == [nics[0]] + nics[1..];
    }
  }

  /**
   * The reordering is the stable sort on the "eth0" key that `sorted` performs:
   * a permutation, ordered by the key, keeping the relative order within
   * each key.
   */
  lemma Eth0FirstIsStableSort(nics: seq<Nic>)
    ensures multiset(Eth0First(nics)) == multiset(nics)
    ensures forall i, j :: 0 <= i < j < |Eth0First(nics)| ==> Rank(Eth0First(nics)[i]) <= Rank(Eth0First(nics)[j])
    ensures forall k :: OfRank(Eth0First(nics), k) == OfRank(nics, k)
  {
    OfRankSplitsMultiset(nics);
    var e, o := OfRank(nics, 0), OfRank(nics, 1);
    forall i, j | 0 <= i < j < |e + o| ensures Rank((e + o)[i]) <= Rank((e + o)[j]) {
      if i < |e| {
        assert Rank((e + o)[i]) == 0;
      } else {
        assert Rank((e + o)[j]) == 1;
      }
    }
    forall k ensures OfRank(e + o, k) == OfRank(nics, k) {
      OfRankAppend(e, o, k);
      OfRankOfRank(nics, 0, k);
      OfRankOfRank(nics, 1, k);
      if k != 0 && k != 1 {
        OfRankNone(nics, k);
      }
    }
  }

  lemma {:induction false} OfRankNone(nics: seq<Nic>, k: nat)
    requires k != 0 && k != 1
    ensures OfRank(nics, k) == []
  {
    if nics != [] {
      OfRankNone(nics[1..], k);
    }
  }

  lemma FirstOfferedStep(nics: seq<Nic>, k: nat, offer: Nic -> Option<string>)
    requires k < |nics|
    ensures FirstOffered(nics[k..], offer) == if offer(nics[k]).Some? then offer(nics[k]) else FirstOffered(nics[k + 1..], offer)
  {
    assert nics[k..][0] == nics[k] && nics[k..][1..] == nics[k + 1..];
  }

  lemma FirstOfferedUnfold(a: seq<Nic>, b: seq<Nic>, offer: Nic -> Option<string>)
    requires a != []
    ensures FirstOffered(a + b, offer) == if offer(a[0]).Some? then offer(a[0]) else FirstOffered(a[1..] + b, offer)
  {
    assert (a + b)[0] == a[0];
    assert (a + b)[1..] == a[1..] + b;
  }

  lemma {:induction false} FirstOfferedAppend(a: seq<Nic>, b: seq<Nic>, offer: Nic -> Option<string>)
    ensures FirstOffered(a + b, offer) == if FirstOffered(a, offer).Some? then FirstOffered(a, offer) else FirstOffered(b, offer)
  {
    if a != [] {
      FirstOfferedUnfold(a, b, offer);
      FirstOfferedAppend(a[1..], b, offer);
    } else {
      assert a + b == b;
    }
  }

  lemma FirstOfferedCons(nic: Nic, tail: seq<Nic>, offer: Nic -> Option<string>)
    ensures FirstOffered([nic] + tail, offer) == if offer(nic).Some? then offer(nic) else FirstOffered(tail, offer)
  {
    FirstOfferedUnfold([nic], tail, offer);
    assert [nic][1..] + tail == tail;
  }

  lemma FirstOfRankStep(nics: seq<Nic>, k: nat, offer: Nic -> Option<string>)
    requires nics != []
    ensures FirstOffered(OfRank(nics, k), offer) ==
      if Rank(nics[0]) == k && offer(nics[0]).Some? then offer(nics[0])
      else FirstOffered(OfRank(nics[1..], k), offer)
  {
    if Rank(nics[0]) == k {
      FirstOfferedCons(nics[0], OfRank(nics[1..], k), offer);
    } else {
      assert OfRank(nics, k) == OfRank(nics[1..], k);
    }
  }

  /** Within one key, nothing is found exactly when no interface of that key offers an address. */
  lemma {:induction false} FirstOfRankNone(nics: seq<Nic>, k: nat, offer: Nic -> Option<string>)
    ensures FirstOffered(OfRank(nics, k), offer).None? <==>
      forall i :: 0 <= i < |nics| && Rank(nics[i]) == k ==> offer(nics[i]).None?
  {
    if FirstOffered(OfRank(nics, k), offer).Some? {
      var i := FirstOfRank(nics, k, offer);
    } else if nics != [] {
      FirstOfRankStep(nics, k, offer);
      FirstOfRankNone(nics[1..], k, offer);
      forall i | 0 <= i < |nics| && Rank(nics[i]) == k
        ensures offer(nics[i]).None?
      {
        if i > 0 {
          assert nics[i] == nics[1..][i - 1];
        }
      }
    }
  }

  /** Within one key, the first interface in original order that offers an address supplies it. */
  lemma {:induction false} FirstOfRank(nics: seq<Nic>, k: nat, offer: Nic -> Option<string>) returns (i: nat)
    requires FirstOffered(OfRank(nics, k), offer).Some?
    ensures i < |nics| && Rank(nics[i]) == k && offer(nics[i]) == FirstOffered(OfRank(nics, k), offer)
    ensures forall j :: 0 <= j < i && Rank(nics[j]) == k ==> offer(nics[j]).None?
  {
    FirstOfRankStep(nics, k, offer);
    if Rank(nics[0]) == k && offer(nics[0]).Some? {
      i := 0;
    } else {
      var rest := FirstOfRank(nics[1..], k, offer);
      FirstOfRankShift(nics, k, rest, offer);
      i := rest + 1;
    }
  }

  /** The index found in `nics[1..]`, seen from `nics`, when `nics[0]` does not supply the address. */
  lemma FirstOfRankShift(nics: seq<Nic>, k: nat, rest: nat, offer: Nic -> Option<string>)
    requires rest + 1 < |nics| && !(Rank(nics[0]) == k && offer(nics[0]).Some?)
    requires Rank(nics[1..][rest]) == k && offer(nics[1..][rest]) == FirstOffered(OfRank(nics[1..], k), offer)
    requires forall j :: 0 <= j < rest && Rank(nics[1..][j]) == k ==> offer(nics[1..][j]).None?
    ensures Rank(nics[rest + 1]) == k && offer(nics[rest + 1]) == FirstOffered(OfRank(nics[1..], k), offer)
    ensures forall j :: 0 <= j < rest + 1 && Rank(nics[j]) == k ==> offer(nics[j]).None?
  {
    assert nics[rest + 1] == nics[1..][rest];
    forall j | 0 < j < rest + 1 && Rank(nics[j]) == k
      ensures offer(nics[j]).None?
    {
      assert nics[j] == nics[1..][j - 1];
    }
  }

  /** `j` is examined before `i` in the eth0-first order. */
  predicate Precedes(nics: seq<Nic>, j: int, i: int)
    requires 0 <= j < |nics| && 0 <= i < |nics|
  {
    Rank(nics[j]) < Rank(nics[i]) || (Rank(nics[j]) == Rank(nics[i]) && j < i)
  }

  /** The eth0-first scan, for any reading of an interface. */
  lemma OfferedPrefersEth0(nics: seq<Nic>, offer: Nic -> Option<string>)
    ensures FirstOffered(Eth0First(nics), offer).None? <==> forall i :: 0 <= i < |nics| ==> offer(nics[i]).None?
    ensures FirstOffered(Eth0First(nics), offer).Some? ==>
      exists i :: 0 <= i < |nics| && offer(nics[i]) == FirstOffered(Eth0First(nics), offer)
        && forall j :: 0 <= j < |nics| && Precedes(nics, j, i) ==> offer(nics[j]).None?
  {
    FirstOfferedAppend(OfRank(nics, 0), OfRank(nics, 1), offer);
    FirstOfRankNone(nics, 0, offer);
    FirstOfRankNone(nics, 1, offer);
    if FirstOffered(OfRank(nics, 0), offer).Some? {
      var i := FirstOfRank(nics, 0, offer);
      assert offer(nics[i]) == FirstOffered(Eth0First(nics), offer);
      assert forall j :: 0 <= j < |nics| && Precedes(nics, j, i) ==> offer(nics[j]).None?;
    } else if FirstOffered(OfRank(nics, 1), offer).Some? {
      var i := FirstOfRank(nics, 1, offer);
      assert offer(nics[i]) == FirstOffered(Eth0First(nics), offer);
      assert forall j :: 0 <= j < |nics| && Precedes(nics, j, i) ==> offer(nics[j]).None?;
    }
  }

  /**
   * A poll selects nothing exactly when no interface offers a valid address;
   * otherwise it selects the candidate of an interface that no interface
   * with a candidate precedes in the eth0-first order.
   */
  lemma SelectPrefersEth0(nics: seq<Nic>)
    ensures Select(nics).None? <==> forall i :: 0 <= i < |nics| ==> Candidate(nics[i]).None?
    ensures Select(nics).Some? ==>
      exists i :: 0 <= i < |nics| && Candidate(nics[i]) == Select(nics)
        && forall j :: 0 <= j < |nics| && Precedes(nics, j, i) ==> Candidate(nics[j]).None?
  {
    OfferedPrefersEth0(nics, Candidate);
  }

  /**
   * The case the eth0 preference exists for: an "eth0" whose "inet" is a
   * routable address with a CIDR suffix (say "10.0.0.7/24") wins over any
   * interface listed before it (say a link-local "eth1"), and the suffix is
   * gone from the result.
   */
  lemma PrefersEth0Example(other: Nic, x: Ipv4.Address, suffix: string)
    requires other.name != Some("eth0") && Ipv4.Routable(x)
    ensures Select([other, Nic(Some("eth0"), Single(Ipv4.Format(x) + "/" + suffix))]) == Some(Ipv4.Format(x))
  {
    var eth0 := Nic(Some("eth0"), Single(Ipv4.Format(x) + "/" + suffix));
    var nics := [other, eth0];
    Ipv4.CidrSuffixIgnored(x, suffix);
    assert Candidate(eth0) == Some(Ipv4.Format(x));
    ExampleOrder(other, eth0);
    FirstOfferedUnfold([eth0], OfRank(nics, 1), Candidate);
  }

  lemma ExampleOrder(other: Nic, eth0: Nic)
    requires Rank(other) == 1 && Rank(eth0) == 0
    ensures Eth0First([other, eth0]) == [eth0] + OfRank([other, eth0], 1)
  {
    var nics := [other, eth0];
    assert nics[1..] == [eth0];
    assert [eth0][1..] == [];
    assert OfRank([eth0], 0) == [eth0] + OfRank([], 0);
    assert OfRank(nics, 0) == [] + OfRank([eth0], 0);
  }

  /** The first reply that is neither a non-list nor a list without a valid address decides. */
  lemma {:induction false} DecidedByFirstAnswer(replies: seq<InterfacesReply>, i: nat)
    requires i < |replies| && !NoAddressYet(replies[i])
    requires forall j :: 0 <= j < i ==> NoAddressYet(replies[j])
    ensures Wait(replies).polls == i + 1
    ensures Wait(replies).outcome == if replies[i].QueryError? then QueryFailed else Found(Select(replies[i].nics).value)
  {
    if i > 0 {
      assert forall j :: 0 <= j < i - 1 ==> replies[1..][j] == replies[j + 1];
      DecidedByFirstAnswer(replies[1..], i - 1);
    }
  }

  /**
   * Timeout exactly when no reply before the deadline offers a valid address:
   * a non-list reply is skipped and polling goes on.
   */
  lemma {:induction false} TimeoutIff(replies: seq<InterfacesReply>)
    ensures Wait(replies).outcome == DhcpTimeout <==> forall i :: 0 <= i < |replies| ==> NoAddressYet(replies[i])
    ensures Wait(replies).outcome == DhcpTimeout ==> Wait(replies).polls == |replies|
  {
    if replies != [] {
      TimeoutIff(replies[1..]);
      if NoAddressYet(replies[0]) {
        assert forall i :: 1 <= i < |replies| ==> replies[i] == replies[1..][i - 1];
      }
    }
  }
}
