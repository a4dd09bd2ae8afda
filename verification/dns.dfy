/** What `applyDNS` does to the stock dnsmasq section and to the DNS records the
    tool owns: take-over with a snapshot, list bookkeeping, and rollback. */
module DnsSpec {
  import opened Text
  import opened Uci
  import opened Projection
  import opened Sidecar

  /** The scalars of the stock section that are saved before they are changed. */
  const SCALARS: seq<string> := ["filter_aaaa", "cachesize", "local_ttl", "min_cache_ttl", "max_cache_ttl",
                                 "noresolv", "resolvfile", "dnssec", "rebind_protection", "allservers"]

  const RESOLV_AUTO := "/tmp/resolv.conf.auto"

  // ---- desired list values ----

  predicate IsUpstreamSep(c: char) {
    c == ',' || c == ' ' || c == '\n' || c == '\t' || c == '\r'
  }

  function SepIndex(s: string): (i: nat)
    ensures i <= |s|
  {
    if s == "" || IsUpstreamSep(s[0]) then 0 else 1 + SepIndex(s[1..])
  }

  /** The non-blank pieces between separators. */
  function SplitUpstreams(s: string): seq<string>
    decreases |s|
  {
    var i := SepIndex(s);
    var f := TrimSpace(s[..i]);
    (if f == "" then [] else [f]) + (if i == |s| then [] else SplitUpstreams(s[i + 1..]))
  }

  function RouteValue(domain: string, up: string, outIface: string): string {
    "/" + TrimPrefix(domain, "*.") + "/" + up + (if outIface != "" then "@" + outIface else "")
  }

  function RouteValues(r: DnsRoute, ups: seq<string>): seq<string> {
    if ups == [] then []
    else RouteValues(r, ups[..|ups| - 1]) + [RouteValue(r.domain, ups[|ups| - 1], r.outIface)]
  }

  function RouteServers(rs: seq<DnsRoute>): seq<string> {
    if rs == [] then []
    else
      var r := rs[|rs| - 1];
      RouteServers(rs[..|rs| - 1]) + (if r.enabled && r.managed then RouteValues(r, SplitUpstreams(r.server)) else [])
  }

  function OwnUpstreams(st: DnsSettings): seq<string> {
    if st.enabled then One(st.primary) + One(st.secondary) else []
  }

  function DohUpstream(doh: DnsDoh): seq<string> {
    if doh.enabled then ["127.0.0.1#" + Decimal(doh.listenPort)] else []
  }

  function DesiredServers(d: Dns): seq<string> {
    OwnUpstreams(d.settings) + DohUpstream(d.doh) + RouteServers(d.routes)
  }

  function DesiredAddrs(rs: seq<DnsRecord>): seq<string> {
    if rs == [] then []
    else
      var r := rs[|rs| - 1];
      DesiredAddrs(rs[..|rs| - 1])
      + (if r.enabled && r.managed && r.wildcard then ["/" + TrimPrefix(r.domain, "*.") + "/" + r.address] else [])
  }

  function DesiredRebind(st: DnsSettings): seq<string> {
    if st.enabled then Distinct(st.rebindDomains) else []
  }

  // ---- the stock section ----

  /** The tool is in charge of the stock section's upstreams. */
  predicate InCharge(d: Dns) {
    d.settings.enabled || d.doh.enabled
  }

  function Snapshot(c: Config): map<string, string> {
    map k | k in SCALARS :: UciGet(c, DNSMASQ, k)
  }

  function Flag(b: bool): seq<string> {
    if b then ["1"] else ["0"]
  }

  predicate OnlyOwnUpstreams(d: Dns) {
    d.doh.enabled || (d.settings.enabled && d.settings.noResolv && (d.settings.primary != "" || d.settings.secondary != ""))
  }

  function PanelPatch(st: DnsSettings, aaaaSupported: bool): Patch {
    map["filter_aaaa" := Flag(st.filterAaaa && aaaaSupported),
        "cachesize" := PositiveOr(st.cacheSize),
        "local_ttl" := PositiveOr(st.localTtl),
        "min_cache_ttl" := PositiveOr(st.minCacheTtl),
        "max_cache_ttl" := PositiveOr(st.maxCacheTtl),
        "dnssec" := Flag(st.dnssec),
        "rebind_protection" := Flag(st.rebindProtect),
        "allservers" := Flag(st.allServers)]
  }

  function ResolvPatch(p: Patch, d: Dns): Patch {
    if OnlyOwnUpstreams(d) then p["noresolv" := ["1"]]["resolvfile" := [RESOLV_AUTO]] else p["noresolv" := []]
  }

  function SavedValue(saved: map<string, string>, k: string): string {
    if k in saved then saved[k] else ""
  }

  function RestorePatch(saved: map<string, string>): Patch {
    map k | k in SCALARS :: One(SavedValue(saved, k))
  }

  function ScalarPatch(d: Dns, aaaaSupported: bool): Patch {
    if InCharge(d) then
      ResolvPatch(if d.settings.enabled then PanelPatch(d.settings, aaaaSupported) else map[], d)
    else if d.settings.savedStock.Some? then RestorePatch(d.settings.savedStock.value)
    else map[]
  }

  lemma ScalarPatchKeys(d: Dns, aaaa: bool)
    ensures forall k :: k in ScalarPatch(d, aaaa) ==> k in SCALARS
  {
  }

  /** Delete what was written last time, then append what is wanted now. */
  function Relist(vs: seq<string>, prev: seq<string>, next: seq<string>): seq<string> {
    Drop(vs, prev) + next
  }

  function MainPatch(c: Config, d: Dns, aaaaSupported: bool): Patch {
    ScalarPatch(d, aaaaSupported)
    ["server" := Relist(Get(c, DNSMASQ, "server"), d.settings.prevServers, DesiredServers(d))]
    ["address" := Relist(Get(c, DNSMASQ, "address"), d.settings.prevAddrs, DesiredAddrs(d.records))]
    ["rebind_domain" := Relist(Get(c, DNSMASQ, "rebind_domain"), d.settings.prevRebind, DesiredRebind(d.settings))]
  }

  // ---- records ----

  function RecordPatch(r: DnsRecord): Patch {
    map["managed_by" := [MARKER_DNS], "name" := One(r.domain), "ip" := One(r.address)]
  }

  function DnsWrites(rs: seq<DnsRecord>): seq<Write> {
    if rs == [] then []
    else
      var r := rs[|rs| - 1];
      DnsWrites(rs[..|rs| - 1])
      + (if r.enabled && r.managed && !r.wildcard then [Write(UciName(r.id), "hostrecord", RecordPatch(r))] else [])
  }

  // ---- one step ----

  /** The DHCP configuration after `applyDNS`. */
  function ApplyDns(c: Config, d: Dns, aaaaSupported: bool): Config {
    Project(PatchSec(c, DNSMASQ, MainPatch(c, d, aaaaSupported)), DnsWrites(d.records), MARKER_DNS)
  }

  /** The bookkeeping after `applyDNS`. */
  function Booked(c: Config, d: Dns): Dns {
    var saved :=
      if !InCharge(d) then None
      else if d.settings.savedStock.None? then Some(Snapshot(c))
      else d.settings.savedStock;
    d.(settings := d.settings.(savedStock := saved, prevServers := DesiredServers(d),
                               prevAddrs := DesiredAddrs(d.records), prevRebind := DesiredRebind(d.settings)))
  }

  /** Saving new settings keeps the internal bookkeeping, except the rebind list. */
  function StoreSettings(held: Dns, s: DnsSettings): Dns {
    held.(settings := s.(savedStock := held.settings.savedStock, prevServers := held.settings.prevServers,
                        prevAddrs := held.settings.prevAddrs))
  }
}
