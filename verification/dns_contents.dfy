/** What `applyDNS` leaves in the DHCP file: the values of the stock dnsmasq section and
    the records, in terms of what the user has set. */
module DnsContents {
  import opened Text
  import opened Uci
  import opened Projection
  import opened Sidecar
  import opened DnsSpec
  import opened Rollback

  // ---- domains and upstreams ----

  /** The domain without the wildcard in front. */
  predicate BareDomain(domain: string, bare: string) {
    domain == "*." + bare || (domain == bare && !HasPrefix(domain, "*."))
  }

  lemma BareIs(domain: string, bare: string)
    ensures BareDomain(domain, bare) <==> bare == TrimPrefix(domain, "*.")
  {
    if HasPrefix(domain, "*.") {
      assert domain == "*." + domain[2..];
      assert domain == "*." + bare ==> domain[2..] == bare;
    }
  }

  predicate IsSep(c: char) {
    c == ',' || c == ' ' || c == '\n' || c == '\t' || c == '\r'
  }

  /** s[i..j] is one of the pieces between separators. */
  predicate IsPiece(s: string, i: int, j: int) {
    0 <= i <= j <= |s| && (i == 0 || IsSep(s[i - 1])) && (j == |s| || IsSep(s[j]))
    && forall k :: i <= k < j ==> !IsSep(s[k])
  }

  predicate PieceReads(s: string, i: int, j: int, up: string) {
    IsPiece(s, i, j) && up == TrimSpace(s[i..j])
  }

  /** One of the upstreams that a text lists. */
  ghost predicate Upstream(s: string, up: string) {
    up != "" && exists i, j :: PieceReads(s, i, j, up)
  }

  lemma SepIs(s: string)
    ensures forall k :: 0 <= k < SepIndex(s) ==> !IsSep(s[k])
    ensures SepIndex(s) < |s| ==> IsSep(s[SepIndex(s)])
  {
  }

  /** Behind the first separator the pieces are those of the rest. */
  lemma PieceAfter(s: string, at: int, i: int, j: int, up: string)
    requires 0 <= at < |s| && IsSep(s[at]) && at < i
    ensures PieceReads(s, i, j, up) <==> PieceReads(s[at + 1..], i - at - 1, j - at - 1, up)
  {
    hide TrimSpace, IsSep;
    var t := s[at + 1..];
    assert forall k :: 0 <= k < |t| ==> t[k] == s[k + at + 1];
    if at < i <= j <= |s| {
      assert s[i..j] == t[i - at - 1..j - at - 1];
      assert (forall k :: i <= k < j ==> !IsSep(s[k])) <==> (forall k :: i - at - 1 <= k < j - at - 1 ==> !IsSep(t[k])) by {
        if forall k :: i - at - 1 <= k < j - at - 1 ==> !IsSep(t[k]) {
          forall k | i <= k < j ensures !IsSep(s[k]) {
            assert t[k - at - 1] == s[k];
          }
        }
      }
    }
  }

  lemma FirstPiece(s: string, i: int, j: int, up: string)
    ensures PieceReads(s, i, j, up) && i <= SepIndex(s) ==> i == 0 && j == SepIndex(s)
    ensures PieceReads(s, 0, SepIndex(s), up) <==> up == TrimSpace(s[..SepIndex(s)])
  {
    hide TrimSpace;
    SepIs(s);
  }

  lemma {:induction false} UpstreamsAre(s: string, up: string)
    ensures up in SplitUpstreams(s) <==> Upstream(s, up)
    decreases |s|
  {
    hide TrimSpace, IsSep, SepIndex, PieceReads;
    var at := SepIndex(s);
    SepIs(s);
    FirstPiece(s, 0, at, up);
    if at < |s| {
      UpstreamsAre(s[at + 1..], up);
      var t := s[at + 1..];
      if i, j :| PieceReads(t, i, j, up) {
        PieceBounds(t, i, j, up);
        PieceAfter(s, at, i + at + 1, j + at + 1, up);
      }
    }
    if i, j :| PieceReads(s, i, j, up) {
      PieceBounds(s, i, j, up);
      FirstPiece(s, i, j, up);
      if i > at {
        PieceAfter(s, at, i, j, up);
      }
    }
  }

  lemma PieceBounds(s: string, i: int, j: int, up: string)
    requires PieceReads(s, i, j, up)
    ensures 0 <= i <= j <= |s|
  {
  }

  // ---- the server list ----

  /** The server entry of a split route: the domain between slashes, then one of its
      upstreams, and the interface to go out by. */
  ghost predicate SplitRoute(v: string, r: DnsRoute) {
    r.enabled && r.managed && exists dom, up ::
      BareDomain(r.domain, dom) && Upstream(r.server, up)
      && v == "/" + dom + "/" + up + (if r.outIface == "" then "" else "@" + r.outIface)
  }

  lemma {:induction false} RouteValuesAre(r: DnsRoute, ups: seq<string>, v: string)
    ensures v in RouteValues(r, ups) <==> exists up :: up in ups && v == RouteValue(r.domain, up, r.outIface)
  {
    hide RouteValue;
    if ups != [] {
      RouteValuesAre(r, ups[..|ups| - 1], v);
      assert ups == ups[..|ups| - 1] + [ups[|ups| - 1]];
    }
  }

  lemma RouteOf(r: DnsRoute, v: string)
    requires r.enabled && r.managed
    ensures v in RouteValues(r, SplitUpstreams(r.server)) <==> SplitRoute(v, r)
  {
    hide SplitUpstreams, Upstream, BareDomain, TrimPrefix, RouteValues;
    var ups := SplitUpstreams(r.server);
    RouteValuesAre(r, ups, v);
    forall up ensures up in ups <==> Upstream(r.server, up) {
      UpstreamsAre(r.server, up);
    }
    forall dom ensures BareDomain(r.domain, dom) <==> dom == TrimPrefix(r.domain, "*.") {
      BareIs(r.domain, dom);
    }
  }

  ghost predicate SplitRouteOf(v: string, rs: seq<DnsRoute>) {
    exists r :: r in rs && SplitRoute(v, r)
  }

  lemma {:induction false} RouteServersAre(rs: seq<DnsRoute>, v: string)
    ensures v in RouteServers(rs) <==> SplitRouteOf(v, rs)
  {
    hide RouteValues, SplitUpstreams, SplitRoute;
    if rs != [] {
      var init, last := rs[..|rs| - 1], rs[|rs| - 1];
      assert rs == init + [last];
      RouteServersAre(init, v);
      if last.enabled && last.managed {
        RouteOf(last, v);
      } else {
        NoSplitRoute(v, last);
      }
    }
  }

  lemma NoSplitRoute(v: string, r: DnsRoute)
    requires !(r.enabled && r.managed)
    ensures !SplitRoute(v, r)
  {
  }

  /** A split route can be read back from its entry: the domain ends at the second slash. */
  lemma SplitRouteReads(v: string, dom: string, rest: string)
    requires v == "/" + dom + "/" + rest && '/' !in dom
    ensures v[0] == '/' && IndexOf(v[1..], '/') == |dom|
    ensures v[1..][..|dom|] == dom && v[1..][|dom| + 1..] == rest
  {
    assert v[1..] == dom + ['/'] + rest;
    IndexOfHead(dom, '/', rest);
  }

  lemma OwnAre(st: DnsSettings, kept: seq<string>, doh: seq<string>, split: seq<string>)
    ensures kept + (OwnUpstreams(st) + doh + split) ==
      kept + (if st.enabled && st.primary != "" then [st.primary] else [])
      + (if st.enabled && st.secondary != "" then [st.secondary] else []) + doh + split
  {
    var a := if st.enabled && st.primary != "" then [st.primary] else [];
    var b := if st.enabled && st.secondary != "" then [st.secondary] else [];
    assert OwnUpstreams(st) == a + b;
    assert kept + (a + b + doh + split) == kept + a + b + doh + split;
  }

  /** The resolvers are those that were there and are not the tool's old ones, then the
      user's two, the DoH proxy, and the split routes. */
  ghost predicate Resolvers(vs: seq<string>, before: seq<string>, d: Dns, kept: seq<string>, split: seq<string>) {
    && vs == kept
       + (if d.settings.enabled && d.settings.primary != "" then [d.settings.primary] else [])
       + (if d.settings.enabled && d.settings.secondary != "" then [d.settings.secondary] else [])
       + (if d.doh.enabled then ["127.0.0.1#" + Decimal(d.doh.listenPort)] else [])
       + split
    && (forall v :: v in kept <==> v in before && v !in d.settings.prevServers)
    && (forall v :: v in split <==> SplitRouteOf(v, d.routes))
  }

  lemma ServersSaved(c: Config, d: Dns, aaaa: bool)
    requires Neutral(c)
    ensures exists kept, split ::
      Resolvers(Get(ApplyDns(c, d, aaaa), DNSMASQ, "server"), Get(c, DNSMASQ, "server"), d, kept, split)
  {
    hide ApplyDns, RouteServers, SplitRouteOf, Decimal, OwnUpstreams, Drop;
    var kept, split := Drop(Get(c, DNSMASQ, "server"), d.settings.prevServers), RouteServers(d.routes);
    ListsAfter(c, d, aaaa);
    DropMembers(Get(c, DNSMASQ, "server"), d.settings.prevServers);
    forall v ensures v in split <==> SplitRouteOf(v, d.routes) {
      RouteServersAre(d.routes, v);
    }
    OwnAre(d.settings, kept, DohUpstream(d.doh), split);
    assert Resolvers(Get(ApplyDns(c, d, aaaa), DNSMASQ, "server"), Get(c, DNSMASQ, "server"), d, kept, split);
  }

  // ---- addresses, rebind domains ----

  /** The address entry of a wildcard record. */
  ghost predicate WildcardEntry(v: string, r: DnsRecord) {
    r.enabled && r.managed && r.wildcard && exists dom :: BareDomain(r.domain, dom) && v == "/" + dom + "/" + r.address
  }

  ghost predicate WildcardOf(v: string, rs: seq<DnsRecord>) {
    exists r :: r in rs && WildcardEntry(v, r)
  }

  lemma {:induction false} AddressesAre(rs: seq<DnsRecord>, v: string)
    ensures v in DesiredAddrs(rs) <==> WildcardOf(v, rs)
  {
    hide WildcardEntry, TrimPrefix;
    if rs != [] {
      var init, last := rs[..|rs| - 1], rs[|rs| - 1];
      assert rs == init + [last];
      AddressesAre(init, v);
      EntryOf(last, v);
    }
  }

  lemma EntryOf(r: DnsRecord, v: string)
    ensures WildcardEntry(v, r) <==>
      r.enabled && r.managed && r.wildcard && v == "/" + TrimPrefix(r.domain, "*.") + "/" + r.address
  {
    hide TrimPrefix, BareDomain;
    forall dom ensures BareDomain(r.domain, dom) <==> dom == TrimPrefix(r.domain, "*.") {
      BareIs(r.domain, dom);
    }
  }

  lemma AddressesSaved(c: Config, d: Dns, aaaa: bool)
    requires Neutral(c)
    ensures exists kept: seq<string>, added: seq<string> ::
      Get(ApplyDns(c, d, aaaa), DNSMASQ, "address") == kept + added
      && (forall v :: v in kept <==> v in Get(c, DNSMASQ, "address") && v !in d.settings.prevAddrs)
      && (forall v :: v in added <==> WildcardOf(v, d.records))
  {
    hide ApplyDns, WildcardOf, DesiredAddrs;
    var kept, added := Drop(Get(c, DNSMASQ, "address"), d.settings.prevAddrs), DesiredAddrs(d.records);
    ListsAfter(c, d, aaaa);
    DropMembers(Get(c, DNSMASQ, "address"), d.settings.prevAddrs);
    forall v ensures v in added <==> WildcardOf(v, d.records) {
      AddressesAre(d.records, v);
    }
  }

  lemma {:induction false} DistinctAre(ps: seq<string>)
    ensures forall p :: p in Distinct(ps) <==> p != "" && exists q :: q in ps && TrimSpace(q) == p
    ensures forall j, k :: 0 <= j < k < |Distinct(ps)| ==> Distinct(ps)[j] != Distinct(ps)[k]
  {
    hide TrimSpace;
    if ps != [] {
      var init, last := ps[..|ps| - 1], ps[|ps| - 1];
      assert ps == init + [last];
      DistinctAre(init);
    }
  }

  /** The domains that may resolve to private addresses, while the settings are on: each
      once, without blanks. */
  lemma RebindSaved(c: Config, d: Dns, aaaa: bool)
    requires Neutral(c)
    ensures exists kept: seq<string>, added: seq<string> ::
      Get(ApplyDns(c, d, aaaa), DNSMASQ, "rebind_domain") == kept + added
      && (forall v :: v in kept <==> v in Get(c, DNSMASQ, "rebind_domain") && v !in d.settings.prevRebind)
      && (forall v :: v in added <==>
            d.settings.enabled && v != "" && exists q :: q in d.settings.rebindDomains && TrimSpace(q) == v)
      && (forall j, k :: 0 <= j < k < |added| ==> added[j] != added[k])
  {
    hide ApplyDns, TrimSpace, Distinct;
    ListsAfter(c, d, aaaa);
    DropMembers(Get(c, DNSMASQ, "rebind_domain"), d.settings.prevRebind);
    DistinctAre(d.settings.rebindDomains);
    var kept, added := Drop(Get(c, DNSMASQ, "rebind_domain"), d.settings.prevRebind), DesiredRebind(d.settings);
    assert Get(ApplyDns(c, d, aaaa), DNSMASQ, "rebind_domain") == kept + added;
  }

  // ---- records ----

  lemma {:induction false} RecordAmong(rs: seq<DnsRecord>, r: DnsRecord)
    requires r in rs && r.enabled && r.managed && !r.wildcard
    ensures Write(UciName(r.id), "hostrecord", RecordPatch(r)) in DnsWrites(rs)
  {
    hide RecordPatch, UciName;
    var init, last := rs[..|rs| - 1], rs[|rs| - 1];
    assert rs == init + [last];
    if r != last {
      RecordAmong(init, r);
    }
  }

  /** A record that is not a wildcard is a section with its name and its address. */
  lemma RecordSaved(c: Config, d: Dns, aaaa: bool, r: DnsRecord)
    requires Consistent(DnsWrites(d.records)) && r in d.records && r.enabled && r.managed && !r.wildcard
    ensures var after, s := ApplyDns(c, d, aaaa), UciName(r.id);
      s in after && after[s].typ == "hostrecord"
      && Get(after, s, "name") == (if r.domain == "" then [] else [r.domain])
      && Get(after, s, "ip") == (if r.address == "" then [] else [r.address])
  {
    hide MainPatch, DnsWrites, UciName, Project, Overlay, PatchSec;
    var ws, w := DnsWrites(d.records), Write(UciName(r.id), "hostrecord", RecordPatch(r));
    var c1 := PatchSec(c, DNSMASQ, MainPatch(c, d, aaaa));
    RecordAmong(d.records, r);
    ConsistentFinal(ws, w);
    ProjectAt(c1, ws, MARKER_DNS, w.sec);
    OverlayGet(OldOpts(c1, w.sec), w.patch, "name");
    OverlayGet(OldOpts(c1, w.sec), w.patch, "ip");
  }

  // ---- scalars ----

  lemma ScalarAfter(c: Config, d: Dns, aaaa: bool, k: Opt)
    requires Neutral(c) && k in SCALARS
    ensures Get(ApplyDns(c, d, aaaa), DNSMASQ, k) ==
      if k in ScalarPatch(d, aaaa) then ScalarPatch(d, aaaa)[k] else Get(c, DNSMASQ, k)
  {
    hide ApplyDns, MainPatch, ScalarPatch;
    MainPatchReads(c, d, aaaa);
    MainAfter(c, d, aaaa, k);
  }

  lemma ScalarNames()
    ensures "filter_aaaa" in SCALARS && "cachesize" in SCALARS && "local_ttl" in SCALARS && "min_cache_ttl" in SCALARS
    ensures "max_cache_ttl" in SCALARS && "noresolv" in SCALARS && "resolvfile" in SCALARS && "dnssec" in SCALARS
    ensures "rebind_protection" in SCALARS && "allservers" in SCALARS
  {
    assert SCALARS[0] == "filter_aaaa" && SCALARS[1] == "cachesize" && SCALARS[2] == "local_ttl" && SCALARS[3] == "min_cache_ttl";
    assert SCALARS[4] == "max_cache_ttl" && SCALARS[5] == "noresolv" && SCALARS[6] == "resolvfile" && SCALARS[7] == "dnssec";
    assert SCALARS[8] == "rebind_protection" && SCALARS[9] == "allservers";
  }

  function OneOrNone(n: int): seq<string> {
    if n > 0 then [Decimal(n)] else []
  }

  function OnOff(b: bool): seq<string> {
    if b then ["1"] else ["0"]
  }

  lemma PanelReads(d: Dns, aaaa: bool)
    requires d.settings.enabled
    ensures var p, s := ScalarPatch(d, aaaa), d.settings;
      "filter_aaaa" in p && p["filter_aaaa"] == OnOff(s.filterAaaa && aaaa)
      && "cachesize" in p && p["cachesize"] == OneOrNone(s.cacheSize)
      && "local_ttl" in p && p["local_ttl"] == OneOrNone(s.localTtl)
      && "min_cache_ttl" in p && p["min_cache_ttl"] == OneOrNone(s.minCacheTtl)
    ensures var p, s := ScalarPatch(d, aaaa), d.settings;
      "max_cache_ttl" in p && p["max_cache_ttl"] == OneOrNone(s.maxCacheTtl)
      && "dnssec" in p && p["dnssec"] == OnOff(s.dnssec)
      && "rebind_protection" in p && p["rebind_protection"] == OnOff(s.rebindProtect)
      && "allservers" in p && p["allservers"] == OnOff(s.allServers)
  {
    hide Decimal, PanelPatch, ResolvPatch, SCALARS;
    PanelHolds(d.settings, aaaa);
    forall k | k != "noresolv" && k != "resolvfile" && k in PanelPatch(d.settings, aaaa)
      ensures k in ScalarPatch(d, aaaa) && ScalarPatch(d, aaaa)[k] == PanelPatch(d.settings, aaaa)[k]
    {
      ResolvKeeps(PanelPatch(d.settings, aaaa), d, k);
    }
  }

  lemma PanelHolds(s: DnsSettings, aaaa: bool)
    ensures var p := PanelPatch(s, aaaa);
      "filter_aaaa" in p && p["filter_aaaa"] == OnOff(s.filterAaaa && aaaa)
      && "cachesize" in p && p["cachesize"] == OneOrNone(s.cacheSize)
      && "local_ttl" in p && p["local_ttl"] == OneOrNone(s.localTtl)
      && "min_cache_ttl" in p && p["min_cache_ttl"] == OneOrNone(s.minCacheTtl)
    ensures var p := PanelPatch(s, aaaa);
      "max_cache_ttl" in p && p["max_cache_ttl"] == OneOrNone(s.maxCacheTtl)
      && "dnssec" in p && p["dnssec"] == OnOff(s.dnssec)
      && "rebind_protection" in p && p["rebind_protection"] == OnOff(s.rebindProtect)
      && "allservers" in p && p["allservers"] == OnOff(s.allServers)
  {
    hide Decimal;
  }

  lemma ResolvKeeps(p: Patch, d: Dns, k: Opt)
    requires k != "noresolv" && k != "resolvfile"
    ensures k in ResolvPatch(p, d) <==> k in p
    ensures k in p ==> ResolvPatch(p, d)[k] == p[k]
  {
  }

  /** While the settings are on, the scalars hold what the user has set. */
  lemma PanelSaved(c: Config, d: Dns, aaaa: bool)
    requires Neutral(c) && d.settings.enabled
    ensures var after, s := ApplyDns(c, d, aaaa), d.settings;
      Get(after, DNSMASQ, "filter_aaaa") == OnOff(s.filterAaaa && aaaa)
      && Get(after, DNSMASQ, "cachesize") == OneOrNone(s.cacheSize)
      && Get(after, DNSMASQ, "local_ttl") == OneOrNone(s.localTtl)
      && Get(after, DNSMASQ, "min_cache_ttl") == OneOrNone(s.minCacheTtl)
      && Get(after, DNSMASQ, "max_cache_ttl") == OneOrNone(s.maxCacheTtl)
      && Get(after, DNSMASQ, "dnssec") == OnOff(s.dnssec)
      && Get(after, DNSMASQ, "rebind_protection") == OnOff(s.rebindProtect)
      && Get(after, DNSMASQ, "allservers") == OnOff(s.allServers)
  {
    hide ApplyDns, ScalarPatch, Decimal;
    ScalarNames();
    PanelReads(d, aaaa);
    ScalarAfter(c, d, aaaa, "filter_aaaa");
    ScalarAfter(c, d, aaaa, "cachesize");
    ScalarAfter(c, d, aaaa, "local_ttl");
    ScalarAfter(c, d, aaaa, "min_cache_ttl");
    ScalarAfter(c, d, aaaa, "max_cache_ttl");
    ScalarAfter(c, d, aaaa, "dnssec");
    ScalarAfter(c, d, aaaa, "rebind_protection");
    ScalarAfter(c, d, aaaa, "allservers");
  }

  /** Only DoH on: of the scalars no other than the two for the resolvers is changed. */
  lemma OnlyResolversChange(c: Config, d: Dns, aaaa: bool, k: Opt)
    requires Neutral(c) && !d.settings.enabled && d.doh.enabled && k in SCALARS && k != "noresolv" && k != "resolvfile"
    ensures Get(ApplyDns(c, d, aaaa), DNSMASQ, k) == Get(c, DNSMASQ, k)
  {
    hide ApplyDns;
    ScalarAfter(c, d, aaaa, k);
  }

  /** While the tool is in charge, the system's own resolvers are left out if DoH is on or
      the user wants only the given ones and gives one, and used otherwise. */
  lemma ResolversSaved(c: Config, d: Dns, aaaa: bool)
    requires Neutral(c) && (d.settings.enabled || d.doh.enabled)
    ensures var after, s := ApplyDns(c, d, aaaa), d.settings;
      if d.doh.enabled || (s.noResolv && (s.primary != "" || s.secondary != "")) then
        Get(after, DNSMASQ, "noresolv") == ["1"] && Get(after, DNSMASQ, "resolvfile") == ["/tmp/resolv.conf.auto"]
      else
        Get(after, DNSMASQ, "noresolv") == [] && Get(after, DNSMASQ, "resolvfile") == Get(c, DNSMASQ, "resolvfile")
  {
    hide ApplyDns, ScalarPatch;
    ScalarNames();
    ResolvReads(d, aaaa);
    ScalarAfter(c, d, aaaa, "noresolv");
    ScalarAfter(c, d, aaaa, "resolvfile");
  }

  lemma ResolvReads(d: Dns, aaaa: bool)
    requires d.settings.enabled || d.doh.enabled
    ensures var p, s := ScalarPatch(d, aaaa), d.settings;
      "noresolv" in p &&
      if d.doh.enabled || (s.noResolv && (s.primary != "" || s.secondary != "")) then
        p["noresolv"] == ["1"] && "resolvfile" in p && p["resolvfile"] == ["/tmp/resolv.conf.auto"]
      else
        p["noresolv"] == [] && "resolvfile" !in p
  {
    hide Decimal;
  }

  /** No other option of the stock section is ever touched. */
  lemma OthersUntouched(c: Config, d: Dns, aaaa: bool, o: Opt)
    requires Neutral(c) && o !in SCALARS && o != "server" && o != "address" && o != "rebind_domain"
    ensures Get(ApplyDns(c, d, aaaa), DNSMASQ, o) == Get(c, DNSMASQ, o)
  {
    hide ApplyDns, ScalarPatch, Relist, DesiredServers, DesiredAddrs, DesiredRebind;
    ScalarPatchKeys(d, aaaa);
    ListUpdates(ScalarPatch(d, aaaa), Relist(Get(c, DNSMASQ, "server"), d.settings.prevServers, DesiredServers(d)),
                Relist(Get(c, DNSMASQ, "address"), d.settings.prevAddrs, DesiredAddrs(d.records)),
                Relist(Get(c, DNSMASQ, "rebind_domain"), d.settings.prevRebind, DesiredRebind(d.settings)));
    MainAfter(c, d, aaaa, o);
  }
}
