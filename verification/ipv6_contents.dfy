/** What `applyIPv6` leaves in the two files: uplinks, LAN sections, hosts and the sections
    given back, option by option. */
module Ipv6Contents {
  import opened Text
  import opened Sequences
  import opened Uci
  import opened Projection
  import opened Sidecar
  import opened Ipv6Spec

  /** A value unless it is blank. */
  function Given(v: string): seq<string> {
    if TrimSpace(v) == "" then [] else [v]
  }

  function AllGiven(vs: seq<string>): seq<string> {
    Filter(vs, (v: string) => TrimSpace(v) != "")
  }

  lemma GivenIs(v: string)
    ensures NonBlank(v) == Given(v)
  {
    BlankTrims();
  }

  lemma BlankTrims()
    ensures TrimSpace("") == ""
  {
  }

  lemma {:induction false} AllGivenAre(vs: seq<string>)
    ensures NonBlanks(vs) == AllGiven(vs)
  {
    hide TrimSpace;
    if vs != [] {
      AllGivenAre(vs[..|vs| - 1]);
      FilterSnoc(vs, (v: string) => TrimSpace(v) != "");
    }
  }

  lemma TwoGiven(a: string, b: string)
    ensures NonBlanks([a, b]) == Given(a) + Given(b)
  {
    hide TrimSpace;
    assert [a, b][..1] == [a] && [a][..0] == [];
    assert NonBlanks([]) == [] && NonBlanks([a]) == Given(a);
  }

  // ---- LANs in the DHCP file ----

  lemma {:induction false} LanAmong(ls: seq<LanV6>, l: LanV6)
    requires l in ls && l.managed
    ensures LanWrite(l) in LanWrites(ls)
  {
    hide LanWrite;
    var init, last := ls[..|ls| - 1], ls[|ls| - 1];
    assert ls == init + [last];
    if l != last {
      LanAmong(init, l);
    }
  }

  /** The section of a managed LAN that nothing else writes or collects. */
  lemma LanAfter(c: Config, v6: Ipv6, l: LanV6, o: Opt)
    requires Consistent(LanWrites(v6.lans)) && l in v6.lans && l.managed
    requires var s := UciName(l.iface); s !in Names(HostWrites(v6)) && (s in c ==> !CarriesMarker(c[s], MARKER_V6))
    ensures var after, s := ApplyV6Dhcp(c, v6), UciName(l.iface);
      s in after && after[s].typ == "dhcp" && Get(after, s, o) == if o in LanPatch(l) then LanPatch(l)[o] else Get(c, s, o)
  {
    hide HostWrites, LanWrites, LanPatch, WriteAll, Project, UciName, Overlay;
    var s, ws := UciName(l.iface), LanWrites(v6.lans);
    var c1 := WriteAll(c, ws);
    LanAmong(v6.lans, l);
    ConsistentFinal(ws, LanWrite(l));
    WriteAllAt(c, ws, s);
    LanPatchUnmarked(l);
    OverlayGet(OldOpts(c, s), LanPatch(l), MANAGED_BY);
    OverlayGet(OldOpts(c, s), LanPatch(l), o);
    ProjectAt(c1, HostWrites(v6), MARKER_V6, s);
    NotReleased(c, v6, s);
  }

  lemma NotReleased(c: Config, v6: Ipv6, s: string)
    requires s in Names(LanWrites(v6.lans))
    ensures s !in Released(c, v6)
  {
    hide LanWrites;
  }

  lemma LanPatchHolds(l: LanV6)
    ensures var p := LanPatch(l);
      "interface" in p && p["interface"] == One(l.iface) && "managed_v6" in p && p["managed_v6"] == ["1"]
      && "dhcpv6" in p && "ra" in p
      && p["dhcpv6"] == p["ra"] == (if l.enabled && l.dhcpv6Enabled then ["server"] else ["disabled"])
    ensures var p := LanPatch(l);
      if l.enabled && l.dhcpv6Enabled then
        "ra_management" in p && p["ra_management"] == [RaManagement(l.dhcpv6Mode)]
        && "ra_mtu" in p && p["ra_mtu"] == (if l.raMtuEnabled then PositiveOr(l.raMtu) else [])
        && "dns" in p && p["dns"] == (if l.ipv6DnsEnabled then NonBlanks(l.dnsServers) else [])
        && ("leasetime" in p <==> l.leaseMinutes > 0) && (l.leaseMinutes > 0 ==> p["leasetime"] == [Decimal(l.leaseMinutes) + "m"])
      else
        "ra_management" !in p && "ra_mtu" !in p && "dns" !in p && "leasetime" !in p
  {
    hide NonBlanks, Decimal, RaManagement;
  }

  /** A managed LAN announces itself and serves addresses exactly if both it and its DHCPv6
      are on; then it does so in its mode, with its lease time, MTU and DNS servers. */
  lemma LanSaved(c: Config, v6: Ipv6, l: LanV6)
    requires Consistent(LanWrites(v6.lans)) && l in v6.lans && l.managed
    requires var s := UciName(l.iface); s !in Names(HostWrites(v6)) && (s in c ==> !CarriesMarker(c[s], MARKER_V6))
    ensures var after, s := ApplyV6Dhcp(c, v6), UciName(l.iface);
      s in after && after[s].typ == "dhcp" && Get(after, s, "managed_v6") == ["1"]
      && Get(after, s, "interface") == (if l.iface == "" then [] else [l.iface])
      && Get(after, s, "dhcpv6") == Get(after, s, "ra") == (if l.enabled && l.dhcpv6Enabled then ["server"] else ["disabled"])
    ensures l.enabled && l.dhcpv6Enabled ==>
      var after, s := ApplyV6Dhcp(c, v6), UciName(l.iface);
      Get(after, s, "ra_management") ==
        (if l.dhcpv6Mode == "stateless" then ["0"] else if l.dhcpv6Mode == "stateful_only" then ["2"] else ["1"])
      && Get(after, s, "ra_mtu") == (if l.raMtuEnabled && l.raMtu > 0 then [Decimal(l.raMtu)] else [])
      && Get(after, s, "dns") == (if l.ipv6DnsEnabled then AllGiven(l.dnsServers) else [])
      && Get(after, s, "leasetime") == (if l.leaseMinutes > 0 then [Decimal(l.leaseMinutes) + "m"] else Get(c, s, "leasetime"))
    ensures !(l.enabled && l.dhcpv6Enabled) ==>
      var after, s := ApplyV6Dhcp(c, v6), UciName(l.iface);
      Get(after, s, "ra_management") == Get(c, s, "ra_management") && Get(after, s, "ra_mtu") == Get(c, s, "ra_mtu")
      && Get(after, s, "dns") == Get(c, s, "dns") && Get(after, s, "leasetime") == Get(c, s, "leasetime")
  {
    hide ApplyV6Dhcp, HostWrites, LanWrites, LanPatch, UciName, Decimal, NonBlanks, AllGiven;
    AllGivenAre(l.dnsServers);
    LanPatchHolds(l);
    LanAfter(c, v6, l, "interface");
    LanAfter(c, v6, l, "managed_v6");
    LanAfter(c, v6, l, "dhcpv6");
    LanAfter(c, v6, l, "ra");
    LanAfter(c, v6, l, "ra_management");
    LanAfter(c, v6, l, "ra_mtu");
    LanAfter(c, v6, l, "dns");
    LanAfter(c, v6, l, "leasetime");
  }

  /** A section that a LAN no longer needs stops serving and announcing, and stays. */
  lemma LanGivenBack(c: Config, v6: Ipv6, s: string)
    requires s in c && Get(c, s, "managed_v6") == ["1"] && s !in Names(LanWrites(v6.lans)) && s !in Names(HostWrites(v6))
    requires !CarriesMarker(c[s], MARKER_V6)
    ensures var after := ApplyV6Dhcp(c, v6);
      s in after && after[s].typ == c[s].typ
      && Get(after, s, "dhcpv6") == ["disabled"] && Get(after, s, "ra") == ["disabled"] && Get(after, s, "managed_v6") == []
  {
    hide HostWrites, LanWrites, WriteAll, Project, Overlay;
    var c1 := WriteAll(c, LanWrites(v6.lans));
    WriteAllAt(c, LanWrites(v6.lans), s);
    ProjectAt(c1, HostWrites(v6), MARKER_V6, s);
    OverlayGet(c[s].opts, RELEASE_DHCP, "dhcpv6");
    OverlayGet(c[s].opts, RELEASE_DHCP, "ra");
    OverlayGet(c[s].opts, RELEASE_DHCP, "managed_v6");
  }

  // ---- hosts ----

  lemma {:induction false} PrefixAmong(ps: seq<PrefixStaticV6>, p: PrefixStaticV6)
    requires p in ps && p.managed && p.enabled
    ensures PrefixWrite(p) in PrefixWrites(ps)
  {
    hide PrefixWrite;
    var init, last := ps[..|ps| - 1], ps[|ps| - 1];
    assert ps == init + [last];
    if p != last {
      PrefixAmong(init, p);
    }
  }

  lemma {:induction false} RefusedAmong(es: seq<AclV6Entry>, e: AclV6Entry)
    requires e in es && e.enabled && e.managed && e.byDuid
    ensures RefusedWrite(e) in RefusedWrites(es)
  {
    hide RefusedWrite;
    var init, last := es[..|es| - 1], es[|es| - 1];
    assert es == init + [last];
    if e != last {
      RefusedAmong(init, e);
    }
  }

  lemma HostAfter(c: Config, v6: Ipv6, w: Write, o: Opt)
    requires Consistent(HostWrites(v6)) && w in HostWrites(v6) && w.sec !in Released(c, v6) && o in w.patch
    ensures w.sec in ApplyV6Dhcp(c, v6) && ApplyV6Dhcp(c, v6)[w.sec].typ == w.typ
    ensures Get(ApplyV6Dhcp(c, v6), w.sec, o) == w.patch[o]
  {
    hide HostWrites, LanWrites, WriteAll, Project, Overlay, Released;
    var c1 := WriteAll(c, LanWrites(v6.lans));
    ConsistentFinal(HostWrites(v6), w);
    ProjectAt(c1, HostWrites(v6), MARKER_V6, w.sec);
    OverlayGet(OldOpts(c1, w.sec), w.patch, o);
  }

  /** A prefix reservation is a host that is known by its DUID or MAC and has the host part
      of its address, without the leading double colon, and the remark as its name. */
  lemma PrefixSaved(c: Config, v6: Ipv6, p: PrefixStaticV6)
    requires Consistent(HostWrites(v6)) && p in v6.prefixes && p.managed && p.enabled && UciName(p.id) !in Released(c, v6)
    ensures var after, s := ApplyV6Dhcp(c, v6), UciName(p.id);
      s in after && after[s].typ == "host" && Get(after, s, "duid") == Given(p.duid) && Get(after, s, "mac") == Given(p.mac)
      && Get(after, s, "name") == Given(p.remark)
      && Get(after, s, "hostid") == Given(if HasPrefix(p.hostId, "::") then p.hostId[2..] else p.hostId)
  {
    hide ApplyV6Dhcp, HostWrites, Released, UciName, Given, NonBlank;
    var w := PrefixWrite(p);
    assert w in HostWrites(v6) by { HostOfPrefix(v6, p); }
    GivenIs(p.duid);
    GivenIs(p.mac);
    GivenIs(p.remark);
    GivenIs(TrimPrefix(p.hostId, "::"));
    HostAfter(c, v6, w, "duid");
    HostAfter(c, v6, w, "mac");
    HostAfter(c, v6, w, "name");
    HostAfter(c, v6, w, "hostid");
  }

  lemma HostOfPrefix(v6: Ipv6, p: PrefixStaticV6)
    requires p in v6.prefixes && p.managed && p.enabled
    ensures PrefixWrite(p) in HostWrites(v6)
  {
    hide PrefixWrite, PrefixWrites, RefusedWrites;
    PrefixAmong(v6.prefixes, p);
  }

  /** In blacklist mode a client listed by its DUID is a host that is refused. */
  lemma RefusedSaved(c: Config, v6: Ipv6, e: AclV6Entry)
    requires Consistent(HostWrites(v6)) && UciName(e.id) !in Released(c, v6)
    requires v6.acl.mode == "blacklist" && e in v6.acl.entries && e.enabled && e.managed && e.byDuid
    ensures var after, s := ApplyV6Dhcp(c, v6), UciName(e.id);
      s in after && after[s].typ == "host" && Get(after, s, "hostid") == ["ignore"]
      && Get(after, s, "duid") == (if e.duid == "" then [] else [e.duid])
  {
    hide ApplyV6Dhcp, HostWrites, Released, UciName;
    var w := RefusedWrite(e);
    assert w in HostWrites(v6) by { HostOfRefused(v6, e); }
    HostAfter(c, v6, w, "duid");
    HostAfter(c, v6, w, "hostid");
  }

  lemma HostOfRefused(v6: Ipv6, e: AclV6Entry)
    requires v6.acl.mode == "blacklist" && e in v6.acl.entries && e.enabled && e.managed && e.byDuid
    ensures RefusedWrite(e) in HostWrites(v6)
  {
    hide RefusedWrite, PrefixWrites, RefusedWrites;
    RefusedAmong(v6.acl.entries, e);
  }

  // ---- the network file ----

  lemma {:induction false} WanAmong(ws: seq<WanV6>, w: WanV6)
    requires w in ws && w.managed && w.enabled
    ensures WanWrite(w) in WanWrites(ws)
  {
    hide WanWrite;
    var init, last := ws[..|ws| - 1], ws[|ws| - 1];
    assert ws == init + [last];
    if w != last {
      WanAmong(init, w);
    }
  }

  lemma PatchAt(c: Config, sec: string, p: Patch, s: string, o: Opt)
    ensures Get(PatchSec(c, sec, p), s, o) == if s == sec && sec in c && o in p then p[o] else Get(c, s, o)
    ensures s in PatchSec(c, sec, p) <==> s in c
    ensures s in c ==> PatchSec(c, sec, p)[s].typ == c[s].typ
  {
    hide Overlay;
    if sec in c {
      OverlayGet(c[sec].opts, p, o);
    }
  }

  lemma {:induction false} PatchLansElsewhere(net: Config, ls: seq<LanV6>, s: string, o: Opt)
    requires forall l :: l in ls && l.managed ==> UciName(l.iface) != s
    ensures s in PatchLans(net, ls) <==> s in net
    ensures s in net ==> PatchLans(net, ls)[s].typ == net[s].typ
    ensures Get(PatchLans(net, ls), s, o) == Get(net, s, o)
  {
    hide UciName, LanNetPatch, PatchSec, Get;
    if ls != [] {
      var init, l := ls[..|ls| - 1], ls[|ls| - 1];
      assert l in ls && forall x :: x in init ==> x in ls;
      PatchLansElsewhere(net, init, s, o);
      PatchAt(PatchLans(net, init), UciName(l.iface), LanNetPatch(l), s, o);
    }
  }

  /** Two LANs on one section are the same LAN. */
  ghost predicate OneLanEach(ls: seq<LanV6>) {
    forall k, l :: k in ls && l in ls && k.managed && l.managed && UciName(k.iface) == UciName(l.iface) ==> k == l
  }

  lemma {:induction false} PatchLansAt(net: Config, ls: seq<LanV6>, l: LanV6, o: Opt)
    requires OneLanEach(ls) && l in ls && l.managed
    ensures var s := UciName(l.iface);
      (s in PatchLans(net, ls) <==> s in net)
      && Get(PatchLans(net, ls), s, o) == if s in net && o in LanNetPatch(l) then LanNetPatch(l)[o] else Get(net, s, o)
  {
    hide UciName, LanNetPatch, PatchSec, Get;
    var init, last, s := ls[..|ls| - 1], ls[|ls| - 1], UciName(l.iface);
    assert ls == init + [last];
    assert forall x :: x in init ==> x in ls;
    if l in init {
      PatchLansAt(net, init, l, o);
    } else {
      PatchLansElsewhere(net, init, s, o);
    }
    PatchAt(PatchLans(net, init), UciName(last.iface), LanNetPatch(last), s, o);
  }

  lemma LanNetHolds(l: LanV6)
    ensures var p := LanNetPatch(l);
      "ip6class" in p && p["ip6class"] == One(l.bindWan) && "ip6hint" in p && p["ip6hint"] == Given(l.prefixHint)
      && ("ip6assign" in p <==> l.prefixAssignLen > 0)
      && (l.prefixAssignLen > 0 ==> p["ip6assign"] == [Decimal(l.prefixAssignLen)])
  {
    hide Decimal, NonBlank, Given;
    GivenIs(l.prefixHint);
  }

  /** A LAN's network section, if there is one, takes its prefix from the chosen uplink,
      with the hint and the length that are given. */
  lemma LanNetSaved(net: Config, v6: Ipv6, released: set<string>, l: LanV6)
    requires OneLanEach(v6.lans) && l in v6.lans && l.managed
    requires var s := UciName(l.iface);
      s in net && !CarriesMarker(net[s], MARKER_V6) && s !in Names(WanWrites(v6.wans)) && s !in released
    ensures var after, s := ApplyV6Net(net, v6, released), UciName(l.iface);
      s in after && Get(after, s, "ip6class") == (if l.bindWan == "" then [] else [l.bindWan])
      && Get(after, s, "ip6hint") == Given(l.prefixHint)
      && Get(after, s, "ip6assign") == (if l.prefixAssignLen > 0 then [Decimal(l.prefixAssignLen)] else Get(net, s, "ip6assign"))
  {
    hide UciName, WanWrites, WriteAll, PatchLans, LanNetPatch, Given, Decimal, OneLanEach, Overlay;
    var s, c1 := UciName(l.iface), WriteAll(net, WanWrites(v6.wans));
    WriteAllAt(net, WanWrites(v6.wans), s);
    LanNetHolds(l);
    PatchLansAt(c1, v6.lans, l, "ip6class");
    PatchLansAt(c1, v6.lans, l, "ip6hint");
    PatchLansAt(c1, v6.lans, l, "ip6assign");
  }

  lemma WanAfter(net: Config, v6: Ipv6, released: set<string>, w: WanV6, o: Opt)
    requires Consistent(WanWrites(v6.wans)) && w in v6.wans && w.managed && w.enabled && o in WanPatch(w)
    requires var s := UciName(w.id); s !in released && forall l :: l in v6.lans && l.managed ==> UciName(l.iface) != s
    ensures var after, s := ApplyV6Net(net, v6, released), UciName(w.id);
      s in after && after[s].typ == "interface" && Get(after, s, o) == WanPatch(w)[o]
  {
    hide UciName, WanWrites, WriteAll, PatchLans, WanPatch, Overlay;
    var s, ws := UciName(w.id), WanWrites(v6.wans);
    var c1 := WriteAll(net, ws);
    WanAmong(v6.wans, w);
    ConsistentFinal(ws, WanWrite(w));
    WriteAllAt(net, ws, s);
    OverlayGet(OldOpts(net, s), WanPatch(w), o);
    PatchLansElsewhere(c1, v6.lans, s, o);
  }

  function WanKeys(): seq<Opt> {
    ["device", "mtu", "proto", "ip6addr", "ip6gw", "peeraddr", "ip6prefix", "tunlink",
     "reqprefix", "reqaddress", "clientid", "norelease", "peerdns", "dns"]
  }

  lemma ClearedHolds(w: WanV6)
    ensures forall o :: o in WanKeys() && o != "proto" && o != "mtu" ==> o in WanCleared(w)
    ensures forall o :: o in WanKeys() && o != "proto" && o != "mtu" && o != "device" ==> WanCleared(w)[o] == []
    ensures WanCleared(w)["device"] == NonBlank(WanDevice(w))
  {
    hide NonBlank, WanDevice;
  }

  lemma MethodLeaves(p: Patch, w: WanV6, o: Opt)
    requires o in p && o != "proto"
    ensures o in WanMethod(p, w) && "proto" in WanMethod(p, w)
    ensures w.proto != "static6" && (o == "ip6addr" || o == "ip6gw") ==> WanMethod(p, w)[o] == p[o]
    ensures !IsTunnel(w.proto) && (o == "peeraddr" || o == "ip6prefix" || o == "tunlink") ==> WanMethod(p, w)[o] == p[o]
    ensures w.proto == "static6" && o != "ip6addr" && o != "ip6gw" ==> WanMethod(p, w)[o] == p[o]
    ensures IsTunnel(w.proto) && o != "peeraddr" && o != "ip6prefix" && o != "tunlink" ==> WanMethod(p, w)[o] == p[o]
    ensures o == "device" ==> WanMethod(p, w)[o] == p[o]
  {
    hide NonBlank, NonBlanks;
  }

  lemma StaticSets(p: Patch, w: WanV6)
    requires w.proto == "static6"
    ensures var q := WanMethod(p, w);
      "proto" in q && q["proto"] == ["static"] && "ip6addr" in q && q["ip6addr"] == NonBlank(w.staticIp6)
      && "ip6gw" in q && q["ip6gw"] == NonBlank(w.staticGw)
  {
    hide NonBlank;
  }

  lemma TunnelSets(p: Patch, w: WanV6)
    requires IsTunnel(w.proto)
    ensures var q := WanMethod(p, w);
      "proto" in q && q["proto"] == One(w.proto) && "peeraddr" in q && q["peeraddr"] == NonBlank(w.peerAddr)
      && "ip6prefix" in q && q["ip6prefix"] == NonBlank(w.tunPrefix) && "tunlink" in q && q["tunlink"] == NonBlank(w.wanIface)
  {
    hide NonBlank;
  }

  lemma ClientSets(p: Patch, w: WanV6)
    requires w.proto != "static6" && !IsTunnel(w.proto)
    ensures var q := WanMethod(p, w);
      "proto" in q && q["proto"] == ["dhcpv6"]
      && "reqprefix" in q && q["reqprefix"] == NonBlank(if w.fixedPrefix == "" then w.reqPrefix else w.fixedPrefix)
      && "reqaddress" in q && q["reqaddress"] == (if w.forcePrefix then ["force"] else ["try"])
      && "clientid" in q && q["clientid"] == NonBlank(w.clientId)
    ensures var q := WanMethod(p, w);
      "norelease" in q && q["norelease"] == (if w.noRelease then ["1"] else [])
      && "peerdns" in q && q["peerdns"] == (if w.peerDns then [] else ["0"])
      && "dns" in q && q["dns"] == (if w.peerDns then [] else NonBlanks([w.dnsPrimary, w.dnsSecondary]))
  {
    hide NonBlank, NonBlanks, IsTunnel;
  }

  /** The options but the MTU are those of the way of access. */
  lemma WanPatchAt(w: WanV6, o: Opt)
    ensures o != "mtu" ==> (o in WanPatch(w) <==> o in WanMethod(WanCleared(w), w))
    ensures o != "mtu" && o in WanPatch(w) ==> WanPatch(w)[o] == WanMethod(WanCleared(w), w)[o]
    ensures "mtu" in WanPatch(w) && WanPatch(w)["mtu"] == PositiveOr(w.mtu)
  {
    hide WanMethod, WanCleared, Decimal;
  }

  lemma WanHasKeys(w: WanV6, o: Opt)
    requires o in WanKeys()
    ensures o in WanPatch(w)
  {
    hide WanMethod, WanCleared, WanPatch, WanKeys;
    KeysListed();
    ClearedHolds(w);
    WanPatchAt(w, o);
    if o != "mtu" {
      MethodLeaves(WanCleared(w), w, if o == "proto" then "device" else o);
    }
  }

  /** The options of an uplink by its way of access; the ones of the other ways are gone. */
  predicate StaticOptions(w: WanV6, c: Config, s: string) {
    if w.proto == "static6" then
      Get(c, s, "proto") == ["static"] && Get(c, s, "ip6addr") == Given(w.staticIp6) && Get(c, s, "ip6gw") == Given(w.staticGw)
    else
      Get(c, s, "ip6addr") == [] && Get(c, s, "ip6gw") == []
  }

  predicate Tunnelled(w: WanV6) {
    w.proto == "6in4" || w.proto == "6to4" || w.proto == "6rd"
  }

  predicate TunnelOptions(w: WanV6, c: Config, s: string) {
    if Tunnelled(w) then
      Get(c, s, "proto") == [w.proto] && Get(c, s, "peeraddr") == Given(w.peerAddr) && Get(c, s, "ip6prefix") == Given(w.tunPrefix)
      && Get(c, s, "tunlink") == Given(w.wanIface)
    else
      Get(c, s, "peeraddr") == [] && Get(c, s, "ip6prefix") == [] && Get(c, s, "tunlink") == []
  }

  predicate ClientOptions(w: WanV6, c: Config, s: string) {
    if w.proto != "static6" && !Tunnelled(w) then
      Get(c, s, "proto") == ["dhcpv6"]
      && Get(c, s, "reqprefix") == Given(if w.fixedPrefix == "" then w.reqPrefix else w.fixedPrefix)
      && Get(c, s, "reqaddress") == (if w.forcePrefix then ["force"] else ["try"])
      && Get(c, s, "clientid") == Given(w.clientId) && Get(c, s, "norelease") == (if w.noRelease then ["1"] else [])
      && Get(c, s, "peerdns") == (if w.peerDns then [] else ["0"])
      && Get(c, s, "dns") == (if w.peerDns then [] else Given(w.dnsPrimary) + Given(w.dnsSecondary))
    else
      Get(c, s, "reqprefix") == [] && Get(c, s, "reqaddress") == [] && Get(c, s, "clientid") == [] && Get(c, s, "norelease") == []
      && Get(c, s, "peerdns") == [] && Get(c, s, "dns") == []
  }

  /** The section holds what is wanted for an uplink. */
  ghost predicate Holds(w: WanV6, c: Config, s: string) {
    forall o :: o in WanKeys() ==> o in WanPatch(w) && Get(c, s, o) == WanPatch(w)[o]
  }

  lemma HeldAt(w: WanV6, c: Config, s: string, o: Opt)
    requires Holds(w, c, s) && o in WanKeys()
    ensures o == "mtu" ==> Get(c, s, o) == PositiveOr(w.mtu)
    ensures o != "mtu" ==> o in WanMethod(WanCleared(w), w) && Get(c, s, o) == WanMethod(WanCleared(w), w)[o]
  {
    hide Get, WanMethod, WanCleared, WanPatch, WanKeys, PositiveOr;
    WanPatchAt(w, o);
  }

  lemma HeldCleared(w: WanV6, c: Config, s: string, o: Opt)
    requires Holds(w, c, s) && o in WanKeys() && o != "mtu" && o != "proto" && o != "device"
    ensures w.proto != "static6" && (o == "ip6addr" || o == "ip6gw") ==> Get(c, s, o) == []
    ensures !IsTunnel(w.proto) && (o == "peeraddr" || o == "ip6prefix" || o == "tunlink") ==> Get(c, s, o) == []
    ensures w.proto == "static6" && o != "ip6addr" && o != "ip6gw" ==> Get(c, s, o) == []
    ensures IsTunnel(w.proto) && o != "peeraddr" && o != "ip6prefix" && o != "tunlink" ==> Get(c, s, o) == []
  {
    hide Get, WanMethod, WanCleared, WanPatch, WanKeys, Holds, IsTunnel;
    KeysListed();
    ClearedHolds(w);
    HeldAt(w, c, s, o);
    MethodLeaves(WanCleared(w), w, o);
  }

  lemma StaticHolds(w: WanV6, c: Config, s: string)
    requires Holds(w, c, s)
    ensures StaticOptions(w, c, s)
  {
    hide Get, NonBlank, Given, WanMethod, WanCleared, WanPatch, WanKeys, Holds;
    KeysListed();
    GivenIs(w.staticIp6);
    GivenIs(w.staticGw);
    if w.proto == "static6" {
      StaticSets(WanCleared(w), w);
      HeldAt(w, c, s, "proto");
      HeldAt(w, c, s, "ip6addr");
      HeldAt(w, c, s, "ip6gw");
    } else {
      HeldCleared(w, c, s, "ip6addr");
      HeldCleared(w, c, s, "ip6gw");
    }
  }

  lemma TunnelHolds(w: WanV6, c: Config, s: string)
    requires Holds(w, c, s)
    ensures TunnelOptions(w, c, s)
  {
    hide Get, NonBlank, Given, WanMethod, WanCleared, WanPatch, WanKeys, Holds;
    KeysListed();
    GivenIs(w.peerAddr);
    GivenIs(w.tunPrefix);
    GivenIs(w.wanIface);
    if Tunnelled(w) {
      TunnelSets(WanCleared(w), w);
      HeldAt(w, c, s, "proto");
      HeldAt(w, c, s, "peeraddr");
      HeldAt(w, c, s, "ip6prefix");
      HeldAt(w, c, s, "tunlink");
    } else {
      HeldCleared(w, c, s, "peeraddr");
      HeldCleared(w, c, s, "ip6prefix");
      HeldCleared(w, c, s, "tunlink");
    }
  }

  lemma ClientHolds(w: WanV6, c: Config, s: string)
    requires Holds(w, c, s)
    ensures ClientOptions(w, c, s)
  {
    hide Get, NonBlank, NonBlanks, Given, WanMethod, WanCleared, WanPatch, WanKeys, Holds;
    KeysListed();
    if w.proto != "static6" && !Tunnelled(w) {
      ClientSets(WanCleared(w), w);
      GivenIs(if w.fixedPrefix == "" then w.reqPrefix else w.fixedPrefix);
      GivenIs(w.clientId);
      TwoGiven(w.dnsPrimary, w.dnsSecondary);
      HeldAt(w, c, s, "proto");
      HeldAt(w, c, s, "reqprefix");
      HeldAt(w, c, s, "reqaddress");
      HeldAt(w, c, s, "clientid");
      HeldAt(w, c, s, "norelease");
      HeldAt(w, c, s, "peerdns");
      HeldAt(w, c, s, "dns");
    } else {
      HeldCleared(w, c, s, "reqprefix");
      HeldCleared(w, c, s, "reqaddress");
      HeldCleared(w, c, s, "clientid");
      HeldCleared(w, c, s, "norelease");
      HeldCleared(w, c, s, "peerdns");
      HeldCleared(w, c, s, "dns");
    }
  }

  lemma DeviceHolds(w: WanV6, c: Config, s: string)
    requires Holds(w, c, s)
    ensures Get(c, s, "device") == Given(if w.device == "" && w.wanIface != "" then "@" + w.wanIface else w.device)
    ensures Get(c, s, "mtu") == if w.mtu > 0 then [Decimal(w.mtu)] else []
  {
    hide Get, NonBlank, Given, Decimal, WanMethod, WanCleared, WanPatch, WanKeys, Holds;
    KeysListed();
    GivenIs(WanDevice(w));
    ClearedHolds(w);
    HeldAt(w, c, s, "device");
    HeldAt(w, c, s, "mtu");
    MethodLeaves(WanCleared(w), w, "device");
  }

  lemma KeysListed()
    ensures var os := WanKeys();
      "device" in os && "mtu" in os && "proto" in os && "ip6addr" in os && "ip6gw" in os && "peeraddr" in os && "ip6prefix" in os
      && "tunlink" in os && "reqprefix" in os && "reqaddress" in os && "clientid" in os && "norelease" in os
      && "peerdns" in os && "dns" in os
  {
    var os := WanKeys();
    assert os[0] == "device" && os[1] == "mtu" && os[2] == "proto" && os[3] == "ip6addr" && os[4] == "ip6gw";
    assert os[5] == "peeraddr" && os[6] == "ip6prefix" && os[7] == "tunlink" && os[8] == "reqprefix" && os[9] == "reqaddress";
    assert os[10] == "clientid" && os[11] == "norelease" && os[12] == "peerdns" && os[13] == "dns";
  }

  /** An enabled uplink is an interface on its device, with exactly the options of its way
      of access. */
  lemma WanSaved(net: Config, v6: Ipv6, released: set<string>, w: WanV6)
    requires Consistent(WanWrites(v6.wans)) && w in v6.wans && w.managed && w.enabled
    requires var s := UciName(w.id); s !in released && forall l :: l in v6.lans && l.managed ==> UciName(l.iface) != s
    ensures var after, s := ApplyV6Net(net, v6, released), UciName(w.id);
      s in after && after[s].typ == "interface"
      && Get(after, s, "device") == Given(if w.device == "" && w.wanIface != "" then "@" + w.wanIface else w.device)
      && Get(after, s, "mtu") == (if w.mtu > 0 then [Decimal(w.mtu)] else [])
      && StaticOptions(w, after, s) && TunnelOptions(w, after, s) && ClientOptions(w, after, s)
  {
    hide ApplyV6Net, UciName, WanWrites, WanPatch, WanKeys, StaticOptions, TunnelOptions, ClientOptions, Given, Decimal;
    var after, s := ApplyV6Net(net, v6, released), UciName(w.id);
    KeysListed();
    forall o | o in WanKeys()
      ensures o in WanPatch(w) && Get(after, s, o) == WanPatch(w)[o]
      ensures s in after && after[s].typ == "interface"
    {
      WanHasKeys(w, o);
      WanAfter(net, v6, released, w, o);
    }
    DeviceHolds(w, after, s);
    StaticHolds(w, after, s);
    TunnelHolds(w, after, s);
    ClientHolds(w, after, s);
  }

  /** A network section that a LAN no longer needs goes back to the default prefix. */
  lemma LanNetGivenBack(net: Config, v6: Ipv6, released: set<string>, s: string)
    requires s in net && s in released && !CarriesMarker(net[s], MARKER_V6) && s !in Names(WanWrites(v6.wans))
    requires forall l :: l in v6.lans && l.managed ==> UciName(l.iface) != s
    ensures var after := ApplyV6Net(net, v6, released);
      s in after && after[s].typ == net[s].typ && Get(after, s, "ip6class") == [] && Get(after, s, "ip6hint") == []
  {
    hide UciName, WanWrites, WriteAll, PatchLans, Overlay;
    var c1 := WriteAll(net, WanWrites(v6.wans));
    WriteAllAt(net, WanWrites(v6.wans), s);
    PatchLansElsewhere(c1, v6.lans, s, "");
    var c2 := PatchLans(c1, v6.lans) - Orphans(net, WanWrites(v6.wans), MARKER_V6);
    assert s in c2;
    OverlayGet(c2[s].opts, RELEASE_NET, "ip6class");
    OverlayGet(c2[s].opts, RELEASE_NET, "ip6hint");
  }
}
