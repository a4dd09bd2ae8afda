/** The OpenWrt backend as an object: the UCI files it edits and the working state
    it keeps. Every save stores its data and then runs one projection; each is
    proved to be exactly one step of the state machine in Machine. */
module Backend {
  import opened Text
  import opened Uci
  import opened Projection
  import opened Sidecar
  import opened NetUtil
  import opened DhcpSpec
  import opened DnsSpec
  import opened Ipv6Spec
  import opened Ownership
  import Rollback
  import opened Machine
  import opened Apply
  import opened Collect
  import opened DnsApply
  import opened Ipv6Apply

  /** The white list allocator counts in 32 bits: fewer addresses than that are taken. */
  ghost predicate Fits(st: Dhcp) {
    |UsedIps(st)| + |st.acl.entries| < TWO32
  }

  /** The DHCP half of `apply`, up to `commit dhcp`. */
  method FillDhcp(dhcp: Config, net: Config, st: Dhcp, svc: Service, drop: set<string>) returns (d: Batch)
    requires Fits(st)
    ensures fresh(d) && d.Valid() && d.base == dhcp && d.result == ApplyDhcp(dhcp, st, net, svc, drop)
  {
    hide Begun, RunBatch, WriteAll, Names, AllServerWrites, AllLeaseWrites, AclWrites, Busy, PushRoutes, AnyServing,
         RetireStock, SelectServer, Marked, UsedIps;
    d := new Batch(dhcp);
    var push := CollectPushRoutes(st);
    var busy := EnabledIfaces(st.servers);
    var exist := Marked(dhcp, MARKER);
    var keep, any := EmitServers(d, st, net, busy, push);
    var leases := EmitLeases(d, st, net, push);
    var acl := EmitAcl(d, st);
    keep := keep + leases + acl;
    DhcpWritesSplit(dhcp, st, net);
    EmitOrphans(d, exist, keep);
    NoUnnamedIface(st.servers);
    EmitStock(d, dhcp, DhcpWrites(st, net), keep, busy, drop);
    Collect.EmitServer(d, dhcp, svc, any);
  }

  lemma DhcpWritesSplit(c: Config, st: Dhcp, net: Config)
    ensures var a, b, e := AllServerWrites(st.servers, st, net), AllLeaseWrites(st.statics, st, net), AclWrites(st);
      WriteAll(c, DhcpWrites(st, net)) == WriteAll(WriteAll(WriteAll(c, a), b), e) &&
      Names(DhcpWrites(st, net)) == Names(a) + Names(b) + Names(e)
  {
    hide WriteAll, Names, AllServerWrites, AllLeaseWrites, AclWrites;
    var a, b, e := AllServerWrites(st.servers, st, net), AllLeaseWrites(st.statics, st, net), AclWrites(st);
    WriteAllConcat(c, a, b);
    WriteAllConcat(c, a + b, e);
  }

  lemma NoUnnamedIface(servers: seq<DhcpServer>)
    ensures "" !in Busy(servers)
  {
  }

  method EmitAcl(d: Batch, st: Dhcp) returns (keep: set<string>)
    requires d.Valid() && Fits(st)
    modifies d
    ensures d.Valid() && d.result == WriteAll(old(d.result), AclWrites(st)) && keep == Names(AclWrites(st))
  {
    hide Begun, RunBatch, WriteAll, Names, AllowWrites, DenyWrites, InitialAlloc, UsedIps;
    if st.acl.mode == ACL_WHITELIST {
      keep := EmitAllowed(d, st);
    } else {
      keep := EmitDenied(d, st.acl.entries);
    }
  }

  /** The network half of `apply`, up to `commit network`. */
  method FillNet(net: Config, st: Dhcp) returns (nb: Batch)
    ensures fresh(nb) && nb.Valid() && nb.base == net && nb.result == ApplyNet(net, st)
  {
    hide Begun, RunBatch, WriteAll, Names, RouteWrites, RuleWrites, Marked;
    nb := new Batch(net);
    var exist := Marked(net, MARKER);
    var keep := EmitRoutes(nb, st.routes);
    var rules := EmitRules(nb, st.rules);
    WriteAllConcat(net, RouteWrites(st.routes), RuleWrites(st.rules));
    EmitOrphans(nb, exist, keep + rules);
  }

  /** `applyDNS`, up to `commit dhcp`. */
  method FillDns(dhcp: Config, d: Dns, aaaa: bool) returns (b: Batch)
    ensures fresh(b) && b.Valid() && b.base == dhcp && b.result == ApplyDns(dhcp, d, aaaa)
  {
    hide Begun, RunBatch, WriteAll, Names, DnsWrites, Marked, PatchSec, MainPatch;
    b := new Batch(dhcp);
    var exist := Marked(dhcp, MARKER_DNS);
    EmitMain(b, dhcp, d, aaaa);
    MainPatchUnmarked(dhcp, d, aaaa);
    PatchKeepsMarks(dhcp, DNSMASQ, MainPatch(dhcp, d, aaaa), MARKER_DNS);
    var keep := EmitRecords(b, d.records);
    EmitOrphans(b, exist, keep);
  }

  lemma MainPatchUnmarked(c: Config, d: Dns, aaaa: bool)
    ensures MANAGED_BY !in MainPatch(c, d, aaaa)
  {
    Rollback.MainPatchReads(c, d, aaaa);
  }

  /** The bookkeeping that `applyDNS` stores. */
  method Book(dhcp: Config, d: Dns) returns (booked: Dns)
    ensures booked == Booked(dhcp, d)
  {
    hide DesiredServers, DesiredAddrs, DesiredRebind, UciGet;
    var saved := None;
    if d.settings.enabled || d.doh.enabled {
      saved := d.settings.savedStock;
      if saved.None? {
        var snapshot := ReadAll(dhcp, SCALARS);
        saved := Some(snapshot);
      }
    }
    var servers := BuildServers(d);
    var addrs := BuildAddrs(d.records);
    var rebind := BuildRebind(d.settings);
    booked := d.(settings := d.settings.(savedStock := saved, prevServers := servers, prevAddrs := addrs, prevRebind := rebind));
  }

  /** `applyIPv6`, up to the commits. */
  method FillV6(dhcp: Config, net: Config, v6: Ipv6) returns (db: Batch, nb: Batch)
    ensures fresh(db) && db.Valid() && db.base == dhcp && db.result == ApplyV6Dhcp(dhcp, v6)
    ensures fresh(nb) && nb.Valid() && nb.base == net && nb.result == ApplyV6Net(net, v6, Released(dhcp, v6))
  {
    hide Begun, RunBatch, WriteAll, Names, WanWrites, LanWrites, HostWrites, PatchLans, PatchEach, Marked, Borrowed;
    db := new Batch(dhcp);
    nb := new Batch(net);
    var wans := EmitWans(nb, v6.wans);
    var lans := EmitLans(nb, db, v6.lans);
    LansKeepMarks(dhcp, v6.lans, MARKER_V6);
    var hosts := EmitHosts(db, v6);
    EmitOrphans(nb, Marked(net, MARKER_V6), wans);
    EmitOrphans(db, Marked(dhcp, MARKER_V6), hosts);
    EmitReleases(nb, db, Borrowed(dhcp), lans);
  }

  lemma DroppedSnoc(held: seq<DhcpServer>, s: DhcpServer, list: seq<DhcpServer>)
    ensures Dropped(held + [s], list) ==
      Dropped(held, list) + if !s.managed && s.id !in (set x | x in list :: x.id) then {UciName(s.id)} else {}
  {
    hide UciName;
    assert forall x :: x in held + [s] <==> x in held || x == s;
  }

  lemma NamesSnoc(names: seq<string>, name: string)
    ensures (set n | n in names + [name]) == (set n | n in names) + {name}
  {
  }

  class UciBackend {
    var dhcp: Config
    var net: Config
    var st: Dhcp
    var v6: Ipv6
    var dns: Dns
    /** Names of stock sections that the user has just removed. */
    var dropStock: seq<string>
    var pending: bool

    ghost function State(): World reads this {
      World(dhcp, net, st, v6, dns)
    }

    constructor (dhcp: Config, net: Config, st: Dhcp, v6: Ipv6, dns: Dns)
      ensures State() == World(dhcp, net, st, v6, dns) && dropStock == [] && !pending
    {
      this.dhcp, this.net := dhcp, net;
      this.st, this.v6, this.dns := st, v6, dns;
      dropStock, pending := [], false;
    }

    /** Run both batches, forget the dropped sections, and note whether the daemon
        took the new configuration. */
    method Apply(svc: Service, reloaded: bool)
      requires Fits(st)
      modifies this
      ensures dhcp == ApplyDhcp(old(dhcp), st, old(net), svc, set s | s in old(dropStock))
      ensures net == ApplyNet(old(net), st)
      ensures st == old(st) && v6 == old(v6) && dns == old(dns) && dropStock == []
      ensures pending <==> svc.NoService? || !reloaded
    {
      hide RunBatch, ApplyDhcp, ApplyNet, UsedIps;
      var d := FillDhcp(dhcp, net, st, svc, set s | s in dropStock);
      dropStock := [];
      var nb := FillNet(net, st);
      dhcp := RunBatch(dhcp, d.cmds);
      net := RunBatch(net, nb.cmds);
      pending := false;
      if svc.NoService? || !reloaded {
        pending := true;
      }
    }

    method SaveDhcpServers(list: seq<DhcpServer>, env: Env, reloaded: bool)
      requires dropStock == [] && Fits(st.(servers := list))
      modifies this
      ensures State() == Step(old(State()), SaveServers(list), env) && dropStock == []
      ensures pending <==> env.svc.NoService? || !reloaded
    {
      hide ApplyDhcp, ApplyNet, UsedIps, UciName;
      ghost var before := State();
      var held := st.servers;
      st := st.(servers := list);
      var keep: set<string> := {};
      for i := 0 to |list|
        invariant keep == set s | s in list[..i] :: s.id
      {
        assert list[..i + 1] == list[..i] + [list[i]];
        keep := keep + {list[i].id};
      }
      assert list[..|list|] == list;
      for i := 0 to |held|
        invariant State() == before.(st := before.st.(servers := list)) && st == before.st.(servers := list)
        invariant (set n | n in dropStock) == Dropped(held[..i], list)
      {
        assert held[..i + 1] == held[..i] + [held[i]];
        DroppedSnoc(held[..i], held[i], list);
        if !held[i].managed && held[i].id !in keep {
          var name := BuildUciName(held[i].id);
          NamesSnoc(dropStock, name);
          dropStock := dropStock + [name];
        }
      }
      assert held[..|held|] == held;
      Apply(env.svc, reloaded);
    }

    method SaveStatics(list: seq<StaticLease>, env: Env, reloaded: bool)
      requires dropStock == [] && Fits(st.(statics := list))
      modifies this
      ensures State() == Step(old(State()), Op.SaveStatics(list), env) && dropStock == []
      ensures pending <==> env.svc.NoService? || !reloaded
    {
      hide ApplyDhcp, ApplyNet, UsedIps;
      st := st.(statics := list);
      assert (set s | s in dropStock) == {};
      Apply(env.svc, reloaded);
    }

    method SaveAcl(acl: Acl, env: Env, reloaded: bool)
      requires dropStock == [] && Fits(st.(acl := acl))
      modifies this
      ensures State() == Step(old(State()), Op.SaveAcl(acl), env) && dropStock == []
      ensures pending <==> env.svc.NoService? || !reloaded
    {
      hide ApplyDhcp, ApplyNet, UsedIps;
      st := st.(acl := acl);
      assert (set s | s in dropStock) == {};
      Apply(env.svc, reloaded);
    }

    method SaveRoutes(list: seq<Route>, env: Env, reloaded: bool)
      requires dropStock == [] && Fits(st)
      modifies this
      ensures State() == Step(old(State()), Op.SaveRoutes(list), env) && dropStock == []
      ensures pending <==> env.svc.NoService? || !reloaded
    {
      hide ApplyDhcp, ApplyNet, ReservedIps, ExcludedIps;
      st := st.(routes := list);
      assert (set s | s in dropStock) == {};
      Apply(env.svc, reloaded);
    }

    method SavePolicyRules(list: seq<PolicyRule>, env: Env, reloaded: bool)
      requires dropStock == [] && Fits(st)
      modifies this
      ensures State() == Step(old(State()), SaveRules(list), env) && dropStock == []
      ensures pending <==> env.svc.NoService? || !reloaded
    {
      hide ApplyDhcp, ApplyNet, ReservedIps, ExcludedIps;
      st := st.(rules := list);
      assert (set s | s in dropStock) == {};
      Apply(env.svc, reloaded);
    }

    method SaveRoutePushMode(mode: string, env: Env, reloaded: bool)
      requires dropStock == [] && Fits(st)
      modifies this
      ensures State() == Step(old(State()), SavePushMode(mode), env) && dropStock == []
      ensures pending <==> env.svc.NoService? || !reloaded
    {
      hide ApplyDhcp, ApplyNet, ReservedIps, ExcludedIps;
      st := st.(pushMode := mode);
      assert (set s | s in dropStock) == {};
      Apply(env.svc, reloaded);
    }

    /** `applyIPv6`: the network batch first. */
    method RunIpv6(odhcpd: bool, reloaded: bool)
      modifies this
      ensures dhcp == ApplyV6Dhcp(old(dhcp), v6) && net == ApplyV6Net(old(net), v6, Released(old(dhcp), v6))
      ensures st == old(st) && v6 == old(v6) && dns == old(dns) && dropStock == old(dropStock)
      ensures pending <==> old(pending) || (odhcpd && !reloaded)
    {
      hide RunBatch, ApplyV6Dhcp, ApplyV6Net, Released;
      var db, nb := FillV6(dhcp, net, v6);
      net := RunBatch(net, nb.cmds);
      dhcp := RunBatch(dhcp, db.cmds);
      if odhcpd && !reloaded {
        pending := true;
      }
    }

    method SaveIpv6(list: Ipv6, env: Env, odhcpd: bool, reloaded: bool)
      modifies this
      ensures State() == Step(old(State()), Op.SaveIpv6(list), env) && dropStock == old(dropStock)
      ensures pending <==> old(pending) || (odhcpd && !reloaded)
    {
      hide ApplyV6Dhcp, ApplyV6Net, Released;
      v6 := list;
      RunIpv6(odhcpd, reloaded);
    }

    /** `applyDNS`: book first, then run the batch. */
    method RunDns(env: Env, restarted: bool)
      modifies this
      ensures dhcp == ApplyDns(old(dhcp), old(dns), env.aaaa) && dns == Booked(old(dhcp), old(dns))
      ensures net == old(net) && st == old(st) && v6 == old(v6) && dropStock == old(dropStock)
      ensures pending <==> old(pending) || (!env.svc.NoService? && !restarted)
    {
      hide RunBatch, ApplyDns, Booked;
      var b := FillDns(dhcp, dns, env.aaaa);
      var booked := Book(dhcp, dns);
      dns := booked;
      dhcp := RunBatch(dhcp, b.cmds);
      if !env.svc.NoService? && !restarted {
        pending := true;
      }
    }

    method SaveDnsSettings(s: DnsSettings, env: Env, restarted: bool)
      modifies this
      ensures State() == Step(old(State()), Op.SaveDnsSettings(s), env) && dropStock == old(dropStock)
      ensures pending <==> old(pending) || (!env.svc.NoService? && !restarted)
    {
      hide ApplyDns, Booked;
      dns := StoreSettings(dns, s);
      RunDns(env, restarted);
    }

    method SaveDnsDoh(doh: DnsDoh, env: Env, restarted: bool)
      modifies this
      ensures State() == Step(old(State()), SaveDoh(doh), env) && dropStock == old(dropStock)
      ensures pending <==> old(pending) || (!env.svc.NoService? && !restarted)
    {
      hide ApplyDns, Booked;
      dns := dns.(doh := doh);
      RunDns(env, restarted);
    }

    method SaveDnsRecords(list: seq<DnsRecord>, env: Env, restarted: bool)
      modifies this
      ensures State() == Step(old(State()), Op.SaveDnsRecords(list), env) && dropStock == old(dropStock)
      ensures pending <==> old(pending) || (!env.svc.NoService? && !restarted)
    {
      hide ApplyDns, Booked;
      dns := dns.(records := list);
      RunDns(env, restarted);
    }

    method SaveDnsDomainRoutes(list: seq<DnsRoute>, env: Env, restarted: bool)
      modifies this
      ensures State() == Step(old(State()), SaveDnsRoutes(list), env) && dropStock == old(dropStock)
      ensures pending <==> old(pending) || (!env.svc.NoService? && !restarted)
    {
      hide ApplyDns, Booked;
      dns := dns.(routes := list);
      RunDns(env, restarted);
    }
  }
}
