/** The NAT rules a node programs for the virtual addresses of the hosts in
    its host table (include/anp_bootstrap.h, add_{tx,rx}_{snat,dnat}_rules,
    apply_local_vip_iptables_rule and apply_remote_vip_iptables_rule).

    For every planar interface whose IPv4 address and whose device's
    virtual address are both non-zero, the local host gets a tx-SNAT and an
    rx-DNAT rule and every other host a tx-DNAT and an rx-SNAT rule. The
    model returns the rules in the order the source hands them to
    execute_iptables_command; running them is the Iptables module's
    concern. */
module NatRules {
  import opened Wrappers
  import opened Text
  import opened Wire
  import opened Ipv4
  import opened HostCodec
  import opened Iptables

  // ---------------------------------------------------------------------
  // The four rule records

  /** Outgoing traffic from the virtual address leaves with the planar one. */
  function TxSnat(virtualIp: string, planarIp: string, intf: string): IptablesRule {
    IptablesRule("A", "nat", "POSTROUTING", "SIP", virtualIp, "out", intf, "SNAT", planarIp)
  }

  /** Outgoing traffic to a virtual address is sent to the planar one. */
  function TxDnat(virtualIp: string, planarIp: string, intf: string): IptablesRule {
    IptablesRule("A", "nat", "OUTPUT", "DIP", virtualIp, "out", intf, "DNAT", planarIp)
  }

  /** Incoming traffic from a planar address appears to come from the
      virtual one. */
  function RxSnat(virtualIp: string, planarIp: string, intf: string): IptablesRule {
    IptablesRule("A", "nat", "INPUT", "SIP", planarIp, "in", intf, "SNAT", virtualIp)
  }

  /** Traffic addressed to the planar address is redirected to the virtual
      one. */
  function RxDnat(virtualIp: string, planarIp: string, intf: string): IptablesRule {
    IptablesRule("A", "nat", "OUTPUT", "DIP", planarIp, "out", intf, "DNAT", virtualIp)
  }

  /** The rx rules are the tx rules with the two addresses swapped (and, for
      SNAT, the INPUT chain and the incoming interface). */
  lemma RxSwapsTx(v: string, p: string, n: string)
    ensures RxDnat(v, p, n) == TxDnat(p, v, n)
    ensures RxSnat(v, p, n) == TxSnat(p, v, n).(chain := "INPUT", ifaceType := "in")
    ensures RxSnat(v, p, n).matchValue == TxSnat(v, p, n).translateIp
    ensures RxSnat(v, p, n).translateIp == TxSnat(v, p, n).matchValue
  {
  }

  /** With non-empty addresses and interface, every field of a NAT rule
      reaches its iptables command: the command reads back as the rule. */
  lemma NatRuleReadsBack(r: IptablesRule, v: string, p: string, n: string)
    requires r in {TxSnat(v, p, n), TxDnat(v, p, n), RxSnat(v, p, n), RxDnat(v, p, n)}
    requires v != "" && p != "" && n != "" && SpaceFree(v) && SpaceFree(p) && SpaceFree(n)
    ensures ParseIptablesCommand(ConstructIptablesCommand(r)) == Some(r)
  {
    NatRuleNormal(r, v, p, n);
    IptablesReadsBack(r);
  }

  /** Every field of a NAT rule with non-empty addresses and interface is
      one the command keeps. */
  lemma NatRuleNormal(r: IptablesRule, v: string, p: string, n: string)
    requires r in {TxSnat(v, p, n), TxDnat(v, p, n), RxSnat(v, p, n), RxDnat(v, p, n)}
    requires v != "" && p != "" && n != ""
    ensures NormalIptables(r) == r
  {
    KeptFields(r);
  }

  lemma KeptFields(r: IptablesRule)
    requires r.matchType in {"SIP", "DIP"} && r.ifaceType in {"in", "out"} && r.jumpTarget in {"SNAT", "DNAT"}
    requires r.matchValue != "" && r.ifaceName != "" && r.translateIp != ""
    ensures NormalIptables(r) == r
  {
  }

  /** The existence check of a NAT rule is the same rule with action C. */
  lemma NatRuleCheck(r: IptablesRule, v: string, p: string, n: string)
    requires r in {TxSnat(v, p, n), TxDnat(v, p, n), RxSnat(v, p, n), RxDnat(v, p, n)}
    ensures CheckCommand(ConstructIptablesCommand(r)) == ConstructIptablesCommand(r.(action := "C"))
  {
    assert SpaceFree("nat") && "nat" != "-A";
    CheckOfAppend(r);
  }

  // ---------------------------------------------------------------------
  // Which interfaces get rules

  /** A struct in_addr is four bytes. */
  predicate DeviceAddresses(d: Device) {
    |d.virtualIp| == 4 && forall j :: 0 <= j < |d.interfaces| ==> |d.interfaces[j].ipv4| == 4
  }

  predicate Addresses(h: Host) {
    forall i :: 0 <= i < |h.devices| ==> DeviceAddresses(h.devices[i])
  }

  predicate TableAddresses(hosts: map<string, Host>) {
    forall k :: k in hosts ==> Addresses(hosts[k])
  }

  /** The two rules for one interface: tx-SNAT then rx-DNAT for the local
      host, tx-DNAT then rx-SNAT for a remote one. */
  function Pair(local: bool, v: string, p: string, n: string): seq<IptablesRule> {
    if local then [TxSnat(v, p, n), RxDnat(v, p, n)] else [TxDnat(v, p, n), RxSnat(v, p, n)]
  }

  /** The rules for one planar interface of device d: a pair when both its
      IPv4 address and the device's virtual address are non-zero. */
  function InterfaceRules(local: bool, d: Device, i: PlanarInterface): seq<IptablesRule>
    requires |d.virtualIp| == 4 && |i.ipv4| == 4
  {
    if i.ipv4 != Zero4 && d.virtualIp != Zero4 then Pair(local, FormatIpv4(d.virtualIp), FormatIpv4(i.ipv4), i.name)
    else []
  }

  function InterfacesRules(local: bool, d: Device, intfs: seq<PlanarInterface>): seq<IptablesRule>
    requires |d.virtualIp| == 4 && forall j :: 0 <= j < |intfs| ==> |intfs[j].ipv4| == 4
  {
    if intfs == [] then []
    else InterfacesRules(local, d, intfs[..|intfs| - 1]) + InterfaceRules(local, d, intfs[|intfs| - 1])
  }

  function DevicesRules(local: bool, ds: seq<Device>): seq<IptablesRule>
    requires forall i :: 0 <= i < |ds| ==> DeviceAddresses(ds[i])
  {
    if ds == [] then []
    else
      var last := ds[|ds| - 1];
      assert DeviceAddresses(last);
      DevicesRules(local, ds[..|ds| - 1]) + InterfacesRules(local, last, last.interfaces)
  }

  /** Every rule for one host, device by device and interface by interface. */
  function HostRules(local: bool, h: Host): seq<IptablesRule>
    requires Addresses(h)
  {
    DevicesRules(local, h.devices)
  }

  /** apply_local_vip_iptables_rule: the rules for the host stored under the
      local address, and none when the table has no such entry. */
  function LocalRules(hosts: map<string, Host>, localIp: string): seq<IptablesRule>
    requires TableAddresses(hosts)
  {
    if localIp in hosts then HostRules(true, hosts[localIp]) else []
  }

  /** apply_remote_vip_iptables_rule: the rules for every entry but the one
      stored under the local address, in the table's iteration order. */
  function RemoteRules(hosts: map<string, Host>, order: seq<string>, localIp: string): seq<IptablesRule>
    requires TableAddresses(hosts) && forall k :: 0 <= k < |order| ==> order[k] in hosts
  {
    if order == [] then []
    else
      var key := order[|order| - 1];
      RemoteRules(hosts, order[..|order| - 1], localIp) + (if key == localIp then [] else HostRules(false, hosts[key]))
  }

  // ---------------------------------------------------------------------
  // What every emitted rule sequence looks like

  /** A usable address: inet_pton accepts it and it is not 0.0.0.0. */
  predicate RealAddress(s: string) {
    ParseIpv4(s).Some? && ParseIpv4(s).value != Zero4
  }

  /** Rules come in pairs, one pair per interface. */
  predicate PairedRules(local: bool, r: seq<IptablesRule>) {
    |r| % 2 == 0 &&
    forall k :: 0 <= k < |r| && k % 2 == 0 ==> r[k..k + 2] == Pair(local, r[k].matchValue, r[k].translateIp, r[k].ifaceName)
  }

  /** Every address a rule matches or translates to is a real one. */
  predicate RealAddresses(r: seq<IptablesRule>) {
    forall k :: 0 <= k < |r| ==> RealAddress(r[k].matchValue) && RealAddress(r[k].translateIp)
  }

  lemma PairedAppend(local: bool, a: seq<IptablesRule>, b: seq<IptablesRule>)
    requires PairedRules(local, a) && PairedRules(local, b)
    ensures PairedRules(local, a + b)
  {
    var r := a + b;
    forall k | 0 <= k < |r| && k % 2 == 0
      ensures r[k..k + 2] == Pair(local, r[k].matchValue, r[k].translateIp, r[k].ifaceName)
    {
      if k < |a| {
        assert r[k..k + 2] == a[k..k + 2];
      } else {
        assert r[k..k + 2] == b[k - |a|..k - |a| + 2];
      }
    }
  }

  lemma RealAppend(a: seq<IptablesRule>, b: seq<IptablesRule>)
    requires RealAddresses(a) && RealAddresses(b)
    ensures RealAddresses(a + b)
  {
    forall k | 0 <= k < |a + b|
      ensures RealAddress((a + b)[k].matchValue) && RealAddress((a + b)[k].translateIp)
    {
      if k < |a| { assert (a + b)[k] == a[k]; } else { assert (a + b)[k] == b[k - |a|]; }
    }
  }

  lemma InterfacePaired(local: bool, d: Device, i: PlanarInterface)
    requires |d.virtualIp| == 4 && |i.ipv4| == 4
    ensures PairedRules(local, InterfaceRules(local, d, i))
  {
    var r := InterfaceRules(local, d, i);
    if r != [] {
      assert r[0..2] == r;
    }
  }

  lemma InterfaceReal(local: bool, d: Device, i: PlanarInterface)
    requires |d.virtualIp| == 4 && |i.ipv4| == 4
    ensures RealAddresses(InterfaceRules(local, d, i))
  {
    if i.ipv4 != Zero4 && d.virtualIp != Zero4 {
      ParseFormatIpv4(d.virtualIp);
      ParseFormatIpv4(i.ipv4);
    }
  }

  lemma {:induction false} InterfacesPaired(local: bool, d: Device, intfs: seq<PlanarInterface>)
    requires |d.virtualIp| == 4 && forall j :: 0 <= j < |intfs| ==> |intfs[j].ipv4| == 4
    ensures PairedRules(local, InterfacesRules(local, d, intfs))
    ensures RealAddresses(InterfacesRules(local, d, intfs))
  {
    if intfs != [] {
      var init, last := intfs[..|intfs| - 1], intfs[|intfs| - 1];
      InterfacesPaired(local, d, init);
      InterfacePaired(local, d, last);
      InterfaceReal(local, d, last);
      PairedAppend(local, InterfacesRules(local, d, init), InterfaceRules(local, d, last));
      RealAppend(InterfacesRules(local, d, init), InterfaceRules(local, d, last));
    }
  }

  lemma {:induction false} DevicesPaired(local: bool, ds: seq<Device>)
    requires forall i :: 0 <= i < |ds| ==> DeviceAddresses(ds[i])
    ensures PairedRules(local, DevicesRules(local, ds))
    ensures RealAddresses(DevicesRules(local, ds))
  {
    if ds != [] {
      var last := ds[|ds| - 1];
      DevicesPaired(local, ds[..|ds| - 1]);
      InterfacesPaired(local, last, last.interfaces);
      PairedAppend(local, DevicesRules(local, ds[..|ds| - 1]), InterfacesRules(local, last, last.interfaces));
      RealAppend(DevicesRules(local, ds[..|ds| - 1]), InterfacesRules(local, last, last.interfaces));
    }
  }

  /** The local host's rules: tx-SNAT/rx-DNAT pairs over real addresses. */
  lemma LocalRulesPaired(hosts: map<string, Host>, localIp: string)
    requires TableAddresses(hosts)
    ensures PairedRules(true, LocalRules(hosts, localIp))
    ensures RealAddresses(LocalRules(hosts, localIp))
    ensures localIp !in hosts ==> LocalRules(hosts, localIp) == []
  {
    if localIp in hosts {
      DevicesPaired(true, hosts[localIp].devices);
    }
  }

  /** The remote hosts' rules: tx-DNAT/rx-SNAT pairs over real addresses. */
  lemma {:induction false} RemoteRulesPaired(hosts: map<string, Host>, order: seq<string>, localIp: string)
    requires TableAddresses(hosts) && forall k :: 0 <= k < |order| ==> order[k] in hosts
    ensures PairedRules(false, RemoteRules(hosts, order, localIp))
    ensures RealAddresses(RemoteRules(hosts, order, localIp))
  {
    if order != [] {
      var key := order[|order| - 1];
      var init := order[..|order| - 1];
      RemoteRulesPaired(hosts, init, localIp);
      var a := RemoteRules(hosts, init, localIp);
      if key != localIp {
        var b := HostRules(false, hosts[key]);
        DevicesPaired(false, hosts[key].devices);
        PairedAppend(false, a, b);
        RealAppend(a, b);
        assert RemoteRules(hosts, order, localIp) == a + b;
      } else {
        assert RemoteRules(hosts, order, localIp) == a + [];
        assert a + [] == a;
      }
    }
  }

  /** The remote pass never looks at the entry under the local address:
      two tables that agree on every other entry give the same rules. */
  lemma {:induction false} RemoteIgnoresLocal(hosts: map<string, Host>, other: map<string, Host>, order: seq<string>, localIp: string)
    requires TableAddresses(hosts) && TableAddresses(other)
    requires forall k :: 0 <= k < |order| ==> order[k] in hosts && order[k] in other
    requires forall k :: 0 <= k < |order| && order[k] != localIp ==> hosts[order[k]] == other[order[k]]
    ensures RemoteRules(hosts, order, localIp) == RemoteRules(other, order, localIp)
  {
    if order != [] {
      RemoteIgnoresLocal(hosts, other, order[..|order| - 1], localIp);
    }
  }

  /** h sits in r as one block starting at position at. */
  predicate BlockAt(r: seq<IptablesRule>, at: nat, h: seq<IptablesRule>) {
    at + |h| <= |r| && r[at..at + |h|] == h
  }

  lemma BlockAppend(a: seq<IptablesRule>, b: seq<IptablesRule>, at: nat, h: seq<IptablesRule>)
    requires BlockAt(a, at, h)
    ensures BlockAt(a + b, at, h)
  {
    assert (a + b)[at..at + |h|] == a[at..at + |h|];
  }

  lemma BlockLast(a: seq<IptablesRule>, h: seq<IptablesRule>)
    ensures BlockAt(a + h, |a|, h)
  {
    assert (a + h)[|a|..|a| + |h|] == h;
  }

  /** Each host other than the local one has all its rules, in one block,
      in the remote pass. */
  lemma {:induction false} RemoteIncludes(hosts: map<string, Host>, order: seq<string>, localIp: string, j: nat)
    requires TableAddresses(hosts) && forall k :: 0 <= k < |order| ==> order[k] in hosts
    requires j < |order| && order[j] != localIp
    ensures exists at: nat :: BlockAt(RemoteRules(hosts, order, localIp), at, HostRules(false, hosts[order[j]]))
  {
    var init := order[..|order| - 1];
    var r := RemoteRules(hosts, order, localIp);
    var h := HostRules(false, hosts[order[j]]);
    var before := RemoteRules(hosts, init, localIp);
    var key := order[|order| - 1];
    var last := if key == localIp then [] else HostRules(false, hosts[key]);
    assert r == before + last;
    if j == |order| - 1 {
      BlockLast(before, h);
    } else {
      assert init[j] == order[j];
      RemoteIncludes(hosts, init, localIp, j);
      var at: nat :| BlockAt(before, at, h);
      BlockAppend(before, last, at, h);
    }
  }

  // ---------------------------------------------------------------------
  // The loops of apply_local_vip_iptables_rule and
  // apply_remote_vip_iptables_rule

  /** The interface loop for one device: that device's rules. */
  method EmitDevice(local: bool, d: Device) returns (out: seq<IptablesRule>)
    requires DeviceAddresses(d)
    ensures out == InterfacesRules(local, d, d.interfaces)
  {
    out := [];
    var j := 0;
    while j < |d.interfaces|
      invariant 0 <= j <= |d.interfaces|
      invariant out == InterfacesRules(local, d, d.interfaces[..j])
    {
      var intf := d.interfaces[j];
      InterfacesStep(local, d, j);
      if intf.ipv4 != Zero4 && d.virtualIp != Zero4 {
        var v, p := FormatIpv4(d.virtualIp), FormatIpv4(intf.ipv4);
        out := out + Pair(local, v, p, intf.name);
      }
      j := j + 1;
    }
    assert d.interfaces[..j] == d.interfaces;
  }

  /** One more interface adds its rules, when it gets any. */
  lemma InterfacesStep(local: bool, d: Device, j: nat)
    requires DeviceAddresses(d) && j < |d.interfaces|
    ensures var i := d.interfaces[j];
      InterfacesRules(local, d, d.interfaces[..j + 1]) ==
        if i.ipv4 != Zero4 && d.virtualIp != Zero4
        then InterfacesRules(local, d, d.interfaces[..j]) + Pair(local, FormatIpv4(d.virtualIp), FormatIpv4(i.ipv4), i.name)
        else InterfacesRules(local, d, d.interfaces[..j])
  {
    var prefix := d.interfaces[..j + 1];
    assert prefix[..j] == d.interfaces[..j] && prefix[j] == d.interfaces[j];
    assert InterfacesRules(local, d, d.interfaces[..j]) + [] == InterfacesRules(local, d, d.interfaces[..j]);
  }

  /** The device loop for one host. */
  method EmitHost(local: bool, h: Host) returns (rules: seq<IptablesRule>)
    requires Addresses(h)
    ensures rules == HostRules(local, h)
  {
    rules := [];
    var i := 0;
    while i < |h.devices|
      invariant 0 <= i <= |h.devices|
      invariant rules == DevicesRules(local, h.devices[..i])
    {
      var more := EmitDevice(local, h.devices[i]);
      rules := rules + more;
      assert h.devices[..i + 1][..i] == h.devices[..i];
      i := i + 1;
    }
    assert h.devices[..i] == h.devices;
  }

  /** apply_local_vip_iptables_rule: the rules handed to the firewall, in
      order; none when the local host is not in the table. */
  method ApplyLocal(hosts: map<string, Host>, localIp: string) returns (rules: seq<IptablesRule>)
    requires TableAddresses(hosts)
    ensures rules == LocalRules(hosts, localIp)
    ensures PairedRules(true, rules) && RealAddresses(rules)
  {
    LocalRulesPaired(hosts, localIp);
    if localIp !in hosts {
      return [];
    }
    rules := EmitHost(true, hosts[localIp]);
  }

  /** apply_remote_vip_iptables_rule over the table enumerated in `order`. */
  method ApplyRemote(hosts: map<string, Host>, order: seq<string>, localIp: string) returns (rules: seq<IptablesRule>)
    requires TableAddresses(hosts) && Enumerates(order, hosts.Keys)
    ensures rules == RemoteRules(hosts, order, localIp)
    ensures PairedRules(false, rules) && RealAddresses(rules)
  {
    EnumeratedKeys(order, hosts);
    rules := [];
    var k := 0;
    while k < |order|
      invariant 0 <= k <= |order|
      invariant rules == RemoteRules(hosts, order[..k], localIp)
    {
      var key := order[k];
      RemoteStep(hosts, order, localIp, k);
      if key != localIp {
        var more := EmitHost(false, hosts[key]);
        rules := rules + more;
      }
      k := k + 1;
    }
    assert order[..k] == order;
    RemoteRulesPaired(hosts, order, localIp);
  }

  /** One more entry adds its host's rules, unless it is the local one. */
  lemma RemoteStep(hosts: map<string, Host>, order: seq<string>, localIp: string, k: nat)
    requires TableAddresses(hosts) && forall i :: 0 <= i < |order| ==> order[i] in hosts
    requires k < |order|
    ensures RemoteRules(hosts, order[..k + 1], localIp) ==
      if order[k] == localIp then RemoteRules(hosts, order[..k], localIp)
      else RemoteRules(hosts, order[..k], localIp) + HostRules(false, hosts[order[k]])
  {
    var prefix := order[..k + 1];
    assert prefix[..k] == order[..k] && prefix[k] == order[k];
    assert RemoteRules(hosts, order[..k], localIp) + [] == RemoteRules(hosts, order[..k], localIp);
  }

  /** Every name in an enumeration of a table's keys is a key. */
  lemma EnumeratedKeys(order: seq<string>, hosts: map<string, Host>)
    requires Enumerates(order, hosts.Keys)
    ensures forall k :: 0 <= k < |order| ==> order[k] in hosts
  {
    forall k | 0 <= k < |order| ensures order[k] in hosts {
      assert order[k] in (set x | x in order);
    }
  }

  // ---------------------------------------------------------------------
  // The table a leaf programs from

  /** A table built from hosts whose addresses are four bytes has only such
      hosts. */
  lemma {:induction false} InsertByAddresses(key: Host -> string, hs: seq<Host>)
    requires forall i :: 0 <= i < |hs| ==> Addresses(hs[i])
    ensures TableAddresses(InsertBy(key, map[], hs))
  {
    if hs != [] {
      InsertByAddresses(key, hs[..|hs| - 1]);
    }
  }

  /** The hosts a root sends, in its table's iteration order, read back. */
  lemma SentHosts(hosts: map<string, Host>, order: seq<string>)
    requires Enumerates(order, hosts.Keys) && |hosts| < 0x1_0000_0000
    requires forall k :: k in hosts ==> ValidHost(hosts[k]) && Addresses(hosts[k])
    ensures forall i :: 0 <= i < |order| ==> order[i] in hosts
    ensures ParseAllHosts(EncodeAllHosts(InOrder(hosts, order))) == Some(InOrder(hosts, order))
    ensures forall i :: 0 <= i < |order| ==> Addresses(InOrder(hosts, order)[i])
  {
    EnumeratedKeys(order, hosts);
    EnumeratesCard(order, hosts.Keys);
    AllHostsRoundTrip(InOrder(hosts, order));
  }

  /** No host named x leaves no entry under x in a table keyed by name. */
  lemma NameAbsent(hs: seq<Host>, x: string)
    requires forall i :: 0 <= i < |hs| ==> hs[i].name != x
    ensures x !in InsertBy(HostName, map[], hs)
  {
    InsertByKeys(HostName, map[], hs);
  }

  /** As written, a leaf stores the hosts of the composite configuration
      (sent in the root's iteration order) under their host_name while it
      looks its own host up under its address. When no host is named like
      the local address the local pass emits nothing, and the leaf's own
      host, stored under its name, is not skipped by the remote pass. */
  lemma LeafTableAsWritten(hosts: map<string, Host>, order: seq<string>, localIp: string)
    requires Enumerates(order, hosts.Keys) && TableAddresses(hosts)
    requires forall k :: k in hosts ==> hosts[k].name != localIp
    requires forall k, k' :: k in hosts && k' in hosts && k != k' ==> hosts[k].name != hosts[k'].name
    requires localIp in hosts
    ensures forall i :: 0 <= i < |order| ==> order[i] in hosts
    ensures TableAddresses(InsertBy(HostName, map[], InOrder(hosts, order)))
    ensures LocalRules(InsertBy(HostName, map[], InOrder(hosts, order)), localIp) == []
    ensures hosts[localIp].name != localIp && hosts[localIp].name in InsertBy(HostName, map[], InOrder(hosts, order))
    ensures InsertBy(HostName, map[], InOrder(hosts, order))[hosts[localIp].name] == hosts[localIp]
  {
    EnumeratedKeys(order, hosts);
    var hs := InOrder(hosts, order);
    InsertByAddresses(HostName, hs);
    NameAbsent(hs, localIp);
    assert localIp in (set x | x in order);
    var j :| 0 <= j < |order| && order[j] == localIp;
    forall i | 0 <= i < |hs| && i != j
      ensures HostName(hs[i]) != HostName(hs[j])
    {
      assert order[i] != order[j];
    }
    InsertByFinds(HostName, map[], hs, j);
  }

  /** Storing the composite configuration under host_ip, as the root stores
      its own table, the leaf programs exactly the rules the root computes
      for the same local address. */
  lemma LeafTableByIp(hosts: map<string, Host>, order: seq<string>, localIp: string, leafOrder: seq<string>)
    requires Enumerates(order, hosts.Keys) && |hosts| < 0x1_0000_0000 && KeyedByIp(hosts)
    requires forall k :: k in hosts ==> ValidHost(hosts[k]) && Addresses(hosts[k])
    requires Enumerates(leafOrder, hosts.Keys)
    ensures forall i :: 0 <= i < |order| ==> order[i] in hosts
    ensures forall i :: 0 <= i < |leafOrder| ==> leafOrder[i] in hosts
    ensures ParseAllHosts(EncodeAllHosts(InOrder(hosts, order))) == Some(InOrder(hosts, order))
    ensures InsertBy(HostIp, map[], InOrder(hosts, order)) == hosts
    ensures LocalRules(InsertBy(HostIp, map[], InOrder(hosts, order)), localIp) == LocalRules(hosts, localIp)
    ensures RemoteRules(InsertBy(HostIp, map[], InOrder(hosts, order)), leafOrder, localIp) == RemoteRules(hosts, leafOrder, localIp)
  {
    SentHosts(hosts, order);
    EnumeratedKeys(leafOrder, hosts);
    InsertByIpRestores(hosts, order);
  }
}
