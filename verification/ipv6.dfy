/** What `applyIPv6` does: sections of its own for uplinks, prefix reservations and
    refused clients, and options borrowed inside the LAN's stock sections. */
module Ipv6Spec {
  import opened Text
  import opened Uci
  import opened Projection
  import opened Sidecar

  /** Blank values are deletions. */
  function NonBlank(v: string): seq<string> {
    if TrimSpace(v) == "" then [] else One(v)
  }

  function NonBlanks(vs: seq<string>): seq<string> {
    if vs == [] then []
    else NonBlanks(vs[..|vs| - 1]) + (if TrimSpace(vs[|vs| - 1]) == "" then [] else [vs[|vs| - 1]])
  }

  // ---- uplinks ----

  function WanDevice(w: WanV6): string {
    if w.device == "" && w.wanIface != "" then "@" + w.wanIface else w.device
  }

  /** Everything that only some access methods use is cleared first. */
  function WanCleared(w: WanV6): Patch {
    map["managed_by" := [MARKER_V6], "device" := NonBlank(WanDevice(w)),
        "ip6addr" := [], "ip6gw" := [], "reqprefix" := [], "reqaddress" := [], "clientid" := [],
        "norelease" := [], "peerdns" := [], "dns" := [], "peeraddr" := [], "ip6prefix" := [], "tunlink" := []]
  }

  predicate IsTunnel(proto: string) {
    proto == "6in4" || proto == "6to4" || proto == "6rd"
  }

  function WanMethod(p: Patch, w: WanV6): Patch {
    if w.proto == "static6" then
      p["proto" := ["static"]]["ip6addr" := NonBlank(w.staticIp6)]["ip6gw" := NonBlank(w.staticGw)]
    else if IsTunnel(w.proto) then
      p["proto" := One(w.proto)]["peeraddr" := NonBlank(w.peerAddr)]["ip6prefix" := NonBlank(w.tunPrefix)]
      ["tunlink" := NonBlank(w.wanIface)]
    else
      p["proto" := ["dhcpv6"]]
      ["reqprefix" := NonBlank(if w.fixedPrefix == "" then w.reqPrefix else w.fixedPrefix)]
      ["reqaddress" := if w.forcePrefix then ["force"] else ["try"]]
      ["clientid" := NonBlank(w.clientId)]
      ["norelease" := if w.noRelease then ["1"] else []]
      ["peerdns" := if w.peerDns then [] else ["0"]]
      ["dns" := if w.peerDns then [] else NonBlanks([w.dnsPrimary, w.dnsSecondary])]
  }

  function WanPatch(w: WanV6): Patch {
    WanMethod(WanCleared(w), w)["mtu" := PositiveOr(w.mtu)]
  }

  function WanWrite(w: WanV6): Write {
    Write(UciName(w.id), "interface", WanPatch(w))
  }

  function WanWrites(ws: seq<WanV6>): seq<Write> {
    if ws == [] then []
    else
      var w := ws[|ws| - 1];
      WanWrites(ws[..|ws| - 1]) + (if w.managed && w.enabled then [WanWrite(w)] else [])
  }

  // ---- the LAN's borrowed sections ----

  function RaManagement(mode: string): string {
    if mode == "stateless" then "0" else if mode == "stateful_only" then "2" else "1"
  }

  function LanServing(p: Patch, l: LanV6): Patch {
    var q := p["dhcpv6" := ["server"]]["ra" := ["server"]]["ra_management" := [RaManagement(l.dhcpv6Mode)]];
    (if l.leaseMinutes > 0 then q["leasetime" := [Decimal(l.leaseMinutes) + "m"]] else q)
    ["ra_mtu" := if l.raMtuEnabled then PositiveOr(l.raMtu) else []]
    ["dns" := if l.ipv6DnsEnabled then NonBlanks(l.dnsServers) else []]
  }

  function LanBorrowed(l: LanV6): Patch {
    map["interface" := One(l.iface), "managed_v6" := ["1"]]
  }

  function LanPatch(l: LanV6): Patch {
    if l.enabled && l.dhcpv6Enabled then LanServing(LanBorrowed(l), l)
    else LanBorrowed(l)["dhcpv6" := ["disabled"]]["ra" := ["disabled"]]
  }

  function LanWrite(l: LanV6): Write {
    Write(UciName(l.iface), "dhcp", LanPatch(l))
  }

  function LanWrites(ls: seq<LanV6>): seq<Write> {
    if ls == [] then []
    else LanWrites(ls[..|ls| - 1]) + (if ls[|ls| - 1].managed then [LanWrite(ls[|ls| - 1])] else [])
  }

  function LanNetPatch(l: LanV6): Patch {
    (if l.prefixAssignLen > 0 then map["ip6assign" := [Decimal(l.prefixAssignLen)]] else map[])
    ["ip6class" := One(l.bindWan)]["ip6hint" := NonBlank(l.prefixHint)]
  }

  function PatchLans(net: Config, ls: seq<LanV6>): Config {
    if ls == [] then net
    else
      var l := ls[|ls| - 1];
      var before := PatchLans(net, ls[..|ls| - 1]);
      if l.managed then PatchSec(before, UciName(l.iface), LanNetPatch(l)) else before
  }

  predicate IsBorrowed(s: Section) {
    OptGet(s.opts, "managed_v6") == ["1"]
  }

  function Borrowed(c: Config): set<string> {
    set s | s in c && IsBorrowed(c[s])
  }

  /** Borrowed sections that are no longer managed. */
  function Released(c: Config, v6: Ipv6): set<string> {
    Borrowed(c) - Names(LanWrites(v6.lans))
  }

  const RELEASE_DHCP: Patch := map["dhcpv6" := ["disabled"], "ra" := ["disabled"], "managed_v6" := []]
  const RELEASE_NET: Patch := map["ip6class" := [], "ip6hint" := []]

  function PatchEach(c: Config, names: set<string>, p: Patch): Config {
    map s | s in c :: if s in names then Section(c[s].typ, Overlay(c[s].opts, p)) else c[s]
  }

  // ---- hosts ----

  function PrefixWrite(p: PrefixStaticV6): Write {
    Write(UciName(p.id), "host",
          map["managed_by" := [MARKER_V6], "duid" := NonBlank(p.duid), "mac" := NonBlank(p.mac),
              "hostid" := NonBlank(TrimPrefix(p.hostId, "::")), "name" := NonBlank(p.remark)])
  }

  function PrefixWrites(ps: seq<PrefixStaticV6>): seq<Write> {
    if ps == [] then []
    else
      var p := ps[|ps| - 1];
      PrefixWrites(ps[..|ps| - 1]) + (if p.managed && p.enabled then [PrefixWrite(p)] else [])
  }

  function RefusedWrite(e: AclV6Entry): Write {
    Write(UciName(e.id), "host", map["managed_by" := [MARKER_V6], "duid" := One(e.duid), "hostid" := ["ignore"]])
  }

  function RefusedWrites(es: seq<AclV6Entry>): seq<Write> {
    if es == [] then []
    else
      var e := es[|es| - 1];
      RefusedWrites(es[..|es| - 1]) + (if e.enabled && e.managed && e.byDuid then [RefusedWrite(e)] else [])
  }

  function HostWrites(v6: Ipv6): seq<Write> {
    PrefixWrites(v6.prefixes) + (if v6.acl.mode == ACL_BLACKLIST then RefusedWrites(v6.acl.entries) else [])
  }

  // ---- one step ----

  /** The DHCP configuration after `applyIPv6`. */
  function ApplyV6Dhcp(c: Config, v6: Ipv6): Config {
    PatchEach(Project(WriteAll(c, LanWrites(v6.lans)), HostWrites(v6), MARKER_V6), Released(c, v6), RELEASE_DHCP)
  }

  /** The network configuration after `applyIPv6`; `released` comes from the DHCP
      configuration before it. */
  function ApplyV6Net(net: Config, v6: Ipv6, released: set<string>): Config {
    var ws := WanWrites(v6.wans);
    PatchEach(PatchLans(WriteAll(net, ws), v6.lans) - Orphans(net, ws, MARKER_V6), released, RELEASE_NET)
  }

  // ---- what it owns and what it leaves alone ----

  lemma {:induction false} PrefixesStamped(ps: seq<PrefixStaticV6>)
    ensures AllStamped(PrefixWrites(ps), MARKER_V6)
    ensures forall w :: w in PrefixWrites(ps) ==> IsName(w.sec)
  {
    if ps != [] {
      hide NonBlank;
      PrefixesStamped(ps[..|ps| - 1]);
      UciNameIsName(ps[|ps| - 1].id);
    }
  }

  lemma {:induction false} RefusedStamped(es: seq<AclV6Entry>)
    ensures AllStamped(RefusedWrites(es), MARKER_V6)
    ensures forall w :: w in RefusedWrites(es) ==> IsName(w.sec)
  {
    if es != [] {
      RefusedStamped(es[..|es| - 1]);
      UciNameIsName(es[|es| - 1].id);
    }
  }

  lemma HostsStamped(v6: Ipv6)
    ensures AllStamped(HostWrites(v6), MARKER_V6)
    ensures forall w :: w in HostWrites(v6) ==> IsName(w.sec)
  {
    hide PrefixWrites, RefusedWrites;
    PrefixesStamped(v6.prefixes);
    RefusedStamped(v6.acl.entries);
  }

  /** Borrowing never touches the ownership marker. */
  lemma {:induction false} LansUnmarked(ls: seq<LanV6>, s: string)
    ensures MANAGED_BY !in FinalPatch(LanWrites(ls), s)
    ensures forall w :: w in LanWrites(ls) ==> IsName(w.sec)
  {
    if ls == [] {
    } else if ls[|ls| - 1].managed {
      var w := LanWrite(ls[|ls| - 1]);
      LansUnmarked(ls[..|ls| - 1], s);
      UciNameIsName(ls[|ls| - 1].iface);
      LanPatchUnmarked(ls[|ls| - 1]);
      assert LanWrites(ls)[..|LanWrites(ls)| - 1] == LanWrites(ls[..|ls| - 1]);
    } else {
      LansUnmarked(ls[..|ls| - 1], s);
      assert LanWrites(ls) == LanWrites(ls[..|ls| - 1]);
    }
  }

  lemma LanPatchUnmarked(l: LanV6)
    ensures MANAGED_BY !in LanWrite(l).patch
  {
    hide NonBlanks;
  }

  lemma LansKeepMarks(c: Config, ls: seq<LanV6>, marker: string)
    ensures Marked(WriteAll(c, LanWrites(ls)), marker) == Marked(c, marker)
    ensures c.Keys <= WriteAll(c, LanWrites(ls)).Keys
  {
    hide LanWrites, WriteAll;
    forall s ensures s in Marked(WriteAll(c, LanWrites(ls)), marker) <==> s in Marked(c, marker) {
      WriteAllAt(c, LanWrites(ls), s);
      LansUnmarked(ls, s);
      OverlayGet(OldOpts(c, s), FinalPatch(LanWrites(ls), s), MANAGED_BY);
    }
    forall s | s in c ensures s in WriteAll(c, LanWrites(ls)) {
      WriteAllAt(c, LanWrites(ls), s);
    }
  }

  lemma EachKeepsMarks(c: Config, names: set<string>, p: Patch, marker: string)
    requires MANAGED_BY !in p
    ensures Marked(PatchEach(c, names, p), marker) == Marked(c, marker)
    ensures PatchEach(c, names, p).Keys == c.Keys
  {
    hide Overlay;
    forall s | s in c ensures OptGet(PatchEach(c, names, p)[s].opts, MANAGED_BY) == OptGet(c[s].opts, MANAGED_BY) {
      OverlayGet(c[s].opts, p, MANAGED_BY);
    }
  }

  lemma V6Marks(c: Config, v6: Ipv6, other: string)
    requires other != MARKER_V6
    ensures Marked(ApplyV6Dhcp(c, v6), MARKER_V6) == Names(HostWrites(v6))
    ensures Marked(ApplyV6Dhcp(c, v6), other) == Marked(c, other) - Names(HostWrites(v6))
    ensures forall s :: s in c && s !in ApplyV6Dhcp(c, v6) ==> CarriesMarker(c[s], MARKER_V6)
  {
    hide HostWrites, LanWrites, WriteAll, Project, PatchEach, Released;
    var c1 := WriteAll(c, LanWrites(v6.lans));
    var c2 := Project(c1, HostWrites(v6), MARKER_V6);
    HostsStamped(v6);
    LansKeepMarks(c, v6.lans, MARKER_V6);
    LansKeepMarks(c, v6.lans, other);
    ProjectOwns(c1, HostWrites(v6), MARKER_V6);
    ProjectSpares(c1, HostWrites(v6), MARKER_V6, other);
    ProjectDeletesOwn(c1, HostWrites(v6), MARKER_V6);
    EachKeepsMarks(c2, Released(c, v6), RELEASE_DHCP, MARKER_V6);
    EachKeepsMarks(c2, Released(c, v6), RELEASE_DHCP, other);
    forall s | s in c && s !in ApplyV6Dhcp(c, v6) ensures CarriesMarker(c[s], MARKER_V6) {
      assert s in c1 && s !in c2;
      assert s in c1.Keys - c2.Keys;
      assert s in Marked(c1, MARKER_V6);
    }
  }

  /** A section that is neither written, owned nor borrowed stays as it is. */
  lemma V6LeavesAlone(c: Config, v6: Ipv6, s: string)
    requires s in c && !CarriesMarker(c[s], MARKER_V6) && !IsBorrowed(c[s])
    requires s !in Names(LanWrites(v6.lans)) && s !in Names(HostWrites(v6))
    ensures s in ApplyV6Dhcp(c, v6) && ApplyV6Dhcp(c, v6)[s] == c[s]
  {
    hide HostWrites, LanWrites, WriteAll, Project;
    WriteAllAt(c, LanWrites(v6.lans), s);
    ProjectAt(WriteAll(c, LanWrites(v6.lans)), HostWrites(v6), MARKER_V6, s);
  }
}
