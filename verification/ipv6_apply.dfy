/** `applyIPv6` as it runs: two batches filled side by side, one for the network
    file and one for the DHCP file. */
module Ipv6Apply {
  import opened Text
  import opened Uci
  import opened Projection
  import opened Sidecar
  import opened DhcpSpec
  import opened Apply
  import opened Collect
  import opened Ipv6Spec

  method AppendNonBlank(d: Batch, id: string, o: Opt, vs: seq<string>)
    requires d.Valid() && d.sec == id && o in d.patch
    modifies d
    ensures d.Writing(old(d.head), id, old(d.typ)) && d.patch == old(d.patch)[o := old(d.patch)[o] + NonBlanks(vs)]
  {
    hide Begun, RunBatch, TrimSpace;
    ghost var p, h, t := d.patch, d.head, d.typ;
    ghost var was := p[o];
    assert was + NonBlanks(vs[..0]) == was;
    for i := 0 to |vs|
      invariant d.Writing(h, id, t) && d.patch == p[o := was + NonBlanks(vs[..i])]
    {
      assert vs[..i + 1][..i] == vs[..i];
      if TrimSpace(vs[i]) != "" {
        assert was + NonBlanks(vs[..i + 1]) == was + NonBlanks(vs[..i]) + [vs[i]];
        d.Append(id, o, vs[i]);
      } else {
        assert NonBlanks(vs[..i + 1]) == NonBlanks(vs[..i]);
      }
    }
    assert vs[..|vs|] == vs;
  }

  method EmitNonBlank(d: Batch, id: string, o: Opt, v: string)
    requires d.Valid() && d.sec == id
    modifies d
    ensures d.Writing(old(d.head), id, old(d.typ)) && d.patch == old(d.patch)[o := NonBlank(v)]
  {
    d.SetOrDel(id, o, v);
  }

  lemma UpdateOrder(p: Patch, a: Opt, b: Opt, x: seq<string>, y: seq<string>, z: seq<string>)
    requires a != b
    ensures p[a := x][b := y][a := z] == p[b := y][a := z]
    ensures p[a := x][b := y] == p[b := y][a := x]
  {
  }

  // ---- uplinks ----

  method EmitWanCleared(d: Batch, id: string, w: WanV6)
    requires d.Valid()
    modifies d
    ensures d.Writing(old(d.result), id, Some("interface")) && d.patch == WanCleared(w)
  {
    hide Begun, RunBatch, NonBlank;
    d.Open(id, "interface");
    d.SetKV(id, MANAGED_BY, MARKER_V6);
    var dev := w.device;
    if dev == "" && w.wanIface != "" {
      dev := "@" + w.wanIface;
    }
    EmitNonBlank(d, id, "device", dev);
    d.DelK(id, "ip6addr");
    d.DelK(id, "ip6gw");
    d.DelK(id, "reqprefix");
    d.DelK(id, "reqaddress");
    d.DelK(id, "clientid");
    d.DelK(id, "norelease");
    d.DelK(id, "peerdns");
    d.DelK(id, "dns");
    d.DelK(id, "peeraddr");
    d.DelK(id, "ip6prefix");
    d.DelK(id, "tunlink");
  }

  method EmitPeerDns(d: Batch, id: string, w: WanV6)
    requires d.Valid() && d.sec == id
    modifies d
    ensures d.Writing(old(d.head), id, old(d.typ))
    ensures d.patch == old(d.patch)["peerdns" := if w.peerDns then [] else ["0"]]
                                   ["dns" := if w.peerDns then [] else NonBlanks([w.dnsPrimary, w.dnsSecondary])]
  {
    hide Begun, RunBatch, NonBlanks;
    ghost var p := d.patch;
    d.DelK(id, "dns");
    if w.peerDns {
      UpdateOrder(p, "dns", "peerdns", [], [], []);
      d.DelK(id, "peerdns");
    } else {
      ghost var l := NonBlanks([w.dnsPrimary, w.dnsSecondary]);
      UpdateOrder(p, "dns", "peerdns", [], ["0"], l);
      d.SetKV(id, "peerdns", "0");
      AppendNonBlank(d, id, "dns", [w.dnsPrimary, w.dnsSecondary]);
      assert [] + l == l;
    }
  }

  method EmitDhcpv6(d: Batch, id: string, w: WanV6)
    requires d.Valid() && d.sec == id && w.proto != "static6" && !IsTunnel(w.proto)
    modifies d
    ensures d.Writing(old(d.head), id, old(d.typ)) && d.patch == WanMethod(old(d.patch), w)
  {
    hide Begun, RunBatch, NonBlank, NonBlanks;
    d.SetKV(id, "proto", "dhcpv6");
    var reqprefix := w.fixedPrefix;
    if reqprefix == "" {
      reqprefix := w.reqPrefix;
    }
    EmitNonBlank(d, id, "reqprefix", reqprefix);
    if w.forcePrefix {
      d.SetKV(id, "reqaddress", "force");
    } else {
      d.SetKV(id, "reqaddress", "try");
    }
    EmitNonBlank(d, id, "clientid", w.clientId);
    if w.noRelease {
      d.SetKV(id, "norelease", "1");
    } else {
      d.DelK(id, "norelease");
    }
    EmitPeerDns(d, id, w);
  }

  method EmitWan(d: Batch, id: string, w: WanV6)
    requires d.Valid() && id == UciName(w.id)
    modifies d
    ensures d.Valid() && d.result == WriteAll(old(d.result), [WanWrite(w)])
  {
    hide Begun, RunBatch, WriteAll, UciName, NonBlank, WanCleared, PositiveOr;
    ghost var h := d.result;
    EmitWanCleared(d, id, w);
    if w.proto == "static6" {
      d.SetKV(id, "proto", "static");
      EmitNonBlank(d, id, "ip6addr", w.staticIp6);
      EmitNonBlank(d, id, "ip6gw", w.staticGw);
    } else if w.proto == "6in4" || w.proto == "6to4" || w.proto == "6rd" {
      d.SetKV(id, "proto", w.proto);
      EmitNonBlank(d, id, "peeraddr", w.peerAddr);
      EmitNonBlank(d, id, "ip6prefix", w.tunPrefix);
      EmitNonBlank(d, id, "tunlink", w.wanIface);
    } else {
      EmitDhcpv6(d, id, w);
    }
    assert d.patch == WanMethod(WanCleared(w), w);
    EmitPositive(d, id, "mtu", w.mtu);
    BegunIsWrite(h, WanWrite(w));
  }

  method EmitWans(d: Batch, ws: seq<WanV6>) returns (keep: set<string>)
    requires d.Valid()
    modifies d
    ensures d.Valid() && d.result == WriteAll(old(d.result), WanWrites(ws)) && keep == Names(WanWrites(ws))
  {
    hide Begun, RunBatch, WriteAll, Names, UciName, WanPatch;
    ghost var h := d.result;
    keep := {};
    NoWrites(h);
    for i := 0 to |ws|
      invariant d.Valid() && d.result == WriteAll(h, WanWrites(ws[..i])) && keep == Names(WanWrites(ws[..i]))
    {
      var w := ws[i];
      assert ws[..i + 1][..i] == ws[..i];
      if w.managed && w.enabled {
        var id := BuildUciName(w.id);
        keep := keep + {id};
        EmitWan(d, id, w);
        WriteAllConcat(h, WanWrites(ws[..i]), [WanWrite(w)]);
        WriteAllOne(h, WanWrite(w));
      } else {
        assert WanWrites(ws[..i]) + [] == WanWrites(ws[..i]);
      }
    }
    assert ws[..|ws|] == ws;
  }

  // ---- LANs ----

  /** The LAN's options in the network file. */
  method EmitLanNet(nb: Batch, id: string, l: LanV6)
    requires nb.Valid()
    modifies nb
    ensures nb.Valid() && nb.result == PatchSec(old(nb.result), id, LanNetPatch(l))
  {
    hide Begun, RunBatch, PatchSec, NonBlank;
    ghost var h := nb.result;
    nb.Resume(id);
    if l.prefixAssignLen > 0 {
      nb.SetKV(id, "ip6assign", Decimal(l.prefixAssignLen));
    }
    ghost var p := nb.patch;
    nb.DelK(id, "ip6class");
    if l.bindWan != "" {
      nb.Append(id, "ip6class", l.bindWan);
    } else {
      assert One(l.bindWan) == [];
    }
    assert nb.patch["ip6class"] == One(l.bindWan);
    assert nb.patch == p["ip6class" := One(l.bindWan)];
    EmitNonBlank(nb, id, "ip6hint", l.prefixHint);
    BegunIsPatch(h, id, nb.patch);
  }

  method EmitLanServing(db: Batch, id: string, l: LanV6)
    requires db.Valid() && db.sec == id
    modifies db
    ensures db.Writing(old(db.head), id, old(db.typ)) && db.patch == LanServing(old(db.patch), l)
  {
    hide Begun, RunBatch, NonBlanks, Decimal;
    db.SetKV(id, "dhcpv6", "server");
    db.SetKV(id, "ra", "server");
    db.SetKV(id, "ra_management", RaManagement(l.dhcpv6Mode));
    if l.leaseMinutes > 0 {
      db.SetKV(id, "leasetime", Decimal(l.leaseMinutes) + "m");
    }
    if l.raMtuEnabled && l.raMtu > 0 {
      DecimalNotEmpty(l.raMtu);
      db.SetKV(id, "ra_mtu", Decimal(l.raMtu));
    } else {
      db.DelK(id, "ra_mtu");
    }
    ghost var p := db.patch;
    db.DelK(id, "dns");
    if l.ipv6DnsEnabled {
      AppendNonBlank(db, id, "dns", l.dnsServers);
      assert [] + NonBlanks(l.dnsServers) == NonBlanks(l.dnsServers);
    }
    assert db.patch == p["dns" := if l.ipv6DnsEnabled then NonBlanks(l.dnsServers) else []];
  }

  method EmitLanDhcp(db: Batch, id: string, l: LanV6)
    requires db.Valid() && id == UciName(l.iface)
    modifies db
    ensures db.Valid() && db.result == WriteAll(old(db.result), [LanWrite(l)])
  {
    hide Begun, RunBatch, WriteAll, UciName, LanServing;
    ghost var h := db.result;
    db.Open(id, "dhcp");
    db.SetKV(id, "interface", l.iface);
    db.SetKV(id, "managed_v6", "1");
    if l.enabled && l.dhcpv6Enabled {
      EmitLanServing(db, id, l);
    } else {
      db.SetKV(id, "dhcpv6", "disabled");
      db.SetKV(id, "ra", "disabled");
    }
    assert db.patch == LanPatch(l);
    BegunIsWrite(h, LanWrite(l));
  }

  method EmitLans(nb: Batch, db: Batch, ls: seq<LanV6>) returns (keep: set<string>)
    requires nb.Valid() && db.Valid() && nb != db
    modifies nb, db
    ensures nb.Valid() && nb.result == PatchLans(old(nb.result), ls)
    ensures db.Valid() && db.result == WriteAll(old(db.result), LanWrites(ls)) && keep == Names(LanWrites(ls))
  {
    hide Begun, RunBatch, WriteAll, Names, UciName, LanPatch, PatchSec, LanNetPatch;
    ghost var h, n := db.result, nb.result;
    keep := {};
    NoWrites(h);
    for i := 0 to |ls|
      invariant nb.Valid() && nb.result == PatchLans(n, ls[..i])
      invariant db.Valid() && db.result == WriteAll(h, LanWrites(ls[..i])) && keep == Names(LanWrites(ls[..i]))
    {
      var l := ls[i];
      assert ls[..i + 1][..i] == ls[..i];
      if l.managed {
        var id := BuildUciName(l.iface);
        keep := keep + {id};
        EmitLanNet(nb, id, l);
        EmitLanDhcp(db, id, l);
        WriteAllConcat(h, LanWrites(ls[..i]), [LanWrite(l)]);
        WriteAllOne(h, LanWrite(l));
      } else {
        assert LanWrites(ls[..i]) + [] == LanWrites(ls[..i]);
      }
    }
    assert ls[..|ls|] == ls;
  }

  // ---- hosts ----

  method EmitPrefix(db: Batch, id: string, p: PrefixStaticV6)
    requires db.Valid() && id == UciName(p.id)
    modifies db
    ensures db.Valid() && db.result == WriteAll(old(db.result), [PrefixWrite(p)])
  {
    hide Begun, RunBatch, WriteAll, UciName, NonBlank, TrimPrefix;
    ghost var h := db.result;
    db.Open(id, "host");
    db.SetKV(id, MANAGED_BY, MARKER_V6);
    EmitNonBlank(db, id, "duid", p.duid);
    EmitNonBlank(db, id, "mac", p.mac);
    EmitNonBlank(db, id, "hostid", TrimPrefix(p.hostId, "::"));
    EmitNonBlank(db, id, "name", p.remark);
    assert db.patch == PrefixWrite(p).patch;
    BegunIsWrite(h, PrefixWrite(p));
  }

  method EmitRefused(db: Batch, id: string, e: AclV6Entry)
    requires db.Valid() && id == UciName(e.id)
    modifies db
    ensures db.Valid() && db.result == WriteAll(old(db.result), [RefusedWrite(e)])
  {
    hide Begun, RunBatch, WriteAll, UciName;
    ghost var h := db.result;
    db.Open(id, "host");
    db.SetKV(id, MANAGED_BY, MARKER_V6);
    db.SetKV(id, "duid", e.duid);
    db.SetKV(id, "hostid", "ignore");
    BegunIsWrite(h, RefusedWrite(e));
  }

  method EmitPrefixes(db: Batch, ps: seq<PrefixStaticV6>) returns (keep: set<string>)
    requires db.Valid()
    modifies db
    ensures db.Valid() && db.result == WriteAll(old(db.result), PrefixWrites(ps)) && keep == Names(PrefixWrites(ps))
  {
    hide Begun, RunBatch, WriteAll, Names, UciName, PrefixWrite;
    ghost var h := db.result;
    keep := {};
    NoWrites(h);
    for i := 0 to |ps|
      invariant db.Valid() && db.result == WriteAll(h, PrefixWrites(ps[..i])) && keep == Names(PrefixWrites(ps[..i]))
    {
      var p := ps[i];
      assert ps[..i + 1][..i] == ps[..i];
      if p.managed && p.enabled {
        var id := BuildUciName(p.id);
        keep := keep + {id};
        EmitPrefix(db, id, p);
        WriteAllConcat(h, PrefixWrites(ps[..i]), [PrefixWrite(p)]);
        HostName(h, p);
      } else {
        assert PrefixWrites(ps[..i]) + [] == PrefixWrites(ps[..i]);
      }
    }
    assert ps[..|ps|] == ps;
  }

  lemma HostName(c: Config, p: PrefixStaticV6)
    ensures Names([PrefixWrite(p)]) == {UciName(p.id)}
  {
    WriteAllOne(c, PrefixWrite(p));
  }

  method EmitRefusals(db: Batch, es: seq<AclV6Entry>) returns (keep: set<string>)
    requires db.Valid()
    modifies db
    ensures db.Valid() && db.result == WriteAll(old(db.result), RefusedWrites(es)) && keep == Names(RefusedWrites(es))
  {
    hide Begun, RunBatch, WriteAll, Names, UciName;
    ghost var h := db.result;
    keep := {};
    NoWrites(h);
    for i := 0 to |es|
      invariant db.Valid() && db.result == WriteAll(h, RefusedWrites(es[..i])) && keep == Names(RefusedWrites(es[..i]))
    {
      var e := es[i];
      assert es[..i + 1][..i] == es[..i];
      if e.enabled && e.managed && e.byDuid {
        var id := BuildUciName(e.id);
        keep := keep + {id};
        EmitRefused(db, id, e);
        WriteAllConcat(h, RefusedWrites(es[..i]), [RefusedWrite(e)]);
        WriteAllOne(h, RefusedWrite(e));
      } else {
        assert RefusedWrites(es[..i]) + [] == RefusedWrites(es[..i]);
      }
    }
    assert es[..|es|] == es;
  }

  method EmitHosts(db: Batch, v6: Ipv6) returns (keep: set<string>)
    requires db.Valid()
    modifies db
    ensures db.Valid() && db.result == WriteAll(old(db.result), HostWrites(v6)) && keep == Names(HostWrites(v6))
  {
    hide Begun, RunBatch, WriteAll, Names, PrefixWrites, RefusedWrites;
    ghost var h := db.result;
    keep := EmitPrefixes(db, v6.prefixes);
    if v6.acl.mode == ACL_BLACKLIST {
      WriteAllConcat(h, PrefixWrites(v6.prefixes), RefusedWrites(v6.acl.entries));
      var more := EmitRefusals(db, v6.acl.entries);
      keep := keep + more;
    } else {
      assert PrefixWrites(v6.prefixes) + [] == PrefixWrites(v6.prefixes);
    }
  }

  // ---- borrowed sections that are given back ----

  lemma EachMore(c: Config, names: set<string>, p: Patch, n: string)
    requires n !in names
    ensures PatchEach(c, names + {n}, p) == PatchSec(PatchEach(c, names, p), n, p)
  {
    hide Overlay;
  }

  lemma EachNone(c: Config, p: Patch)
    ensures PatchEach(c, {}, p) == c
  {
  }

  method EmitRelease(nb: Batch, db: Batch, n: string)
    requires nb.Valid() && db.Valid() && nb != db
    modifies nb, db
    ensures nb.Valid() && nb.result == PatchSec(old(nb.result), n, RELEASE_NET)
    ensures db.Valid() && db.result == PatchSec(old(db.result), n, RELEASE_DHCP)
  {
    hide Begun, RunBatch, PatchSec;
    ghost var h, m := db.result, nb.result;
    db.Resume(n);
    db.SetKV(n, "dhcpv6", "disabled");
    db.SetKV(n, "ra", "disabled");
    db.DelK(n, "managed_v6");
    BegunIsPatch(h, n, db.patch);
    nb.Resume(n);
    nb.DelK(n, "ip6class");
    nb.DelK(n, "ip6hint");
    BegunIsPatch(m, n, nb.patch);
  }

  method EmitReleases(nb: Batch, db: Batch, borrowed: set<string>, keep: set<string>)
    requires nb.Valid() && db.Valid() && nb != db
    modifies nb, db
    ensures nb.Valid() && nb.result == PatchEach(old(nb.result), borrowed - keep, RELEASE_NET)
    ensures db.Valid() && db.result == PatchEach(old(db.result), borrowed - keep, RELEASE_DHCP)
  {
    hide Begun, RunBatch, PatchSec, PatchEach;
    ghost var h, m := db.result, nb.result;
    var rest := borrowed;
    assert (borrowed - rest) - keep == {};
    EachNone(h, RELEASE_DHCP);
    EachNone(m, RELEASE_NET);
    while rest != {}
      invariant rest <= borrowed && nb.Valid() && db.Valid()
      invariant nb.result == PatchEach(m, (borrowed - rest) - keep, RELEASE_NET)
      invariant db.result == PatchEach(h, (borrowed - rest) - keep, RELEASE_DHCP)
      decreases |rest|
    {
      var n :| n in rest;
      ghost var done := (borrowed - rest) - keep;
      rest := rest - {n};
      if n !in keep {
        assert (borrowed - rest) - keep == done + {n};
        EachMore(h, done, RELEASE_DHCP, n);
        EachMore(m, done, RELEASE_NET, n);
        EmitRelease(nb, db, n);
      } else {
        assert (borrowed - rest) - keep == done;
      }
    }
    assert (borrowed - rest) - keep == borrowed - keep;
  }
}
