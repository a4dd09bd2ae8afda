/** `applyDNS` as it runs: take-over or rollback of the stock section's scalars, the
    three lists value by value, and the tool's own records. */
module DnsApply {
  import opened Text
  import opened Uci
  import opened Projection
  import opened Sidecar
  import opened DhcpSpec
  import opened Apply
  import opened Collect
  import opened DnsSpec

  // ---- desired values ----

  method BuildUpstreams(s: string) returns (out: seq<string>)
    ensures out == SplitUpstreams(s)
  {
    hide SplitUpstreams, TrimSpace;
    out := [];
    var at := 0;
    assert s[0..] == s;
    while true
      invariant 0 <= at <= |s|
      invariant out + SplitUpstreams(s[at..]) == SplitUpstreams(s)
      decreases |s| - at
    {
      ghost var rest := s[at..];
      UpstreamStep(rest);
      var end := at;
      while end < |s| && !IsUpstreamSep(s[end])
        invariant at <= end <= |s|
        invariant SepIndex(rest) == end - at + SepIndex(s[end..])
      {
        assert s[end..][1..] == s[end + 1..];
        end := end + 1;
      }
      assert s[at..end] == rest[..end - at];
      var f := TrimSpace(s[at..end]);
      if f != "" {
        out := out + [f];
      }
      if end == |s| {
        assert out + [] == out;
        return;
      }
      assert rest[end - at + 1..] == s[end + 1..];
      at := end + 1;
    }
  }

  lemma UpstreamStep(s: string)
    ensures var i, f := SepIndex(s), TrimSpace(s[..SepIndex(s)]);
      SplitUpstreams(s) == (if f == "" then [] else [f]) + (if i == |s| then [] else SplitUpstreams(s[i + 1..]))
  {
  }

  method BuildOwn(d: Dns) returns (out: seq<string>)
    ensures out == OwnUpstreams(d.settings) + DohUpstream(d.doh)
  {
    hide Decimal;
    out := [];
    if d.settings.enabled {
      if d.settings.primary != "" {
        out := out + [d.settings.primary];
      }
      if d.settings.secondary != "" {
        out := out + [d.settings.secondary];
      }
    }
    assert out == OwnUpstreams(d.settings);
    if d.doh.enabled {
      out := out + ["127.0.0.1#" + Decimal(d.doh.listenPort)];
    }
  }

  method BuildRoutes(rs: seq<DnsRoute>) returns (out: seq<string>)
    ensures out == RouteServers(rs)
  {
    hide SplitUpstreams, RouteValues;
    out := [];
    for i := 0 to |rs|
      invariant out == RouteServers(rs[..i])
    {
      assert rs[..i + 1][..i] == rs[..i];
      if rs[i].enabled && rs[i].managed {
        var more := BuildRouteValues(rs[i]);
        out := out + more;
      }
    }
    assert rs[..|rs|] == rs;
  }

  method BuildServers(d: Dns) returns (out: seq<string>)
    ensures out == DesiredServers(d)
  {
    hide OwnUpstreams, DohUpstream, RouteServers;
    out := BuildOwn(d);
    var more := BuildRoutes(d.routes);
    out := out + more;
  }

  method BuildRouteValues(r: DnsRoute) returns (out: seq<string>)
    ensures out == RouteValues(r, SplitUpstreams(r.server))
  {
    hide SplitUpstreams;
    out := [];
    var dom := TrimPrefix(r.domain, "*.");
    var ups := BuildUpstreams(r.server);
    for j := 0 to |ups|
      invariant out == RouteValues(r, ups[..j])
    {
      assert ups[..j + 1][..j] == ups[..j];
      var v := "/" + dom + "/" + ups[j];
      if r.outIface != "" {
        v := v + "@" + r.outIface;
      } else {
        assert v + "" == v;
      }
      assert v == RouteValue(r.domain, ups[j], r.outIface);
      out := out + [v];
    }
    assert ups[..|ups|] == ups;
  }

  method BuildAddrs(rs: seq<DnsRecord>) returns (out: seq<string>)
    ensures out == DesiredAddrs(rs)
  {
    out := [];
    for i := 0 to |rs|
      invariant out == DesiredAddrs(rs[..i])
    {
      var r := rs[i];
      assert rs[..i + 1][..i] == rs[..i];
      if r.enabled && r.managed && r.wildcard {
        out := out + ["/" + TrimPrefix(r.domain, "*.") + "/" + r.address];
      }
    }
    assert rs[..|rs|] == rs;
  }

  method BuildRebind(st: DnsSettings) returns (out: seq<string>)
    ensures out == DesiredRebind(st)
  {
    hide TrimSpace;
    out := [];
    if !st.enabled {
      return;
    }
    var seen: set<string> := {};
    for i := 0 to |st.rebindDomains|
      invariant out == Distinct(st.rebindDomains[..i])
      invariant seen == set v | v in out
    {
      assert st.rebindDomains[..i + 1][..i] == st.rebindDomains[..i];
      var d := TrimSpace(st.rebindDomains[i]);
      if d != "" && d !in seen {
        seen := seen + {d};
        out := out + [d];
      }
    }
    assert st.rebindDomains[..|st.rebindDomains|] == st.rebindDomains;
  }

  // ---- the stock section ----

  method ReadAll(c: Config, ks: seq<Opt>) returns (saved: map<string, string>)
    ensures saved == map k | k in ks :: UciGet(c, DNSMASQ, k)
  {
    hide UciGet;
    saved := map[];
    for i := 0 to |ks|
      invariant saved == map k | k in ks[..i] :: UciGet(c, DNSMASQ, k)
    {
      saved := saved[ks[i] := UciGet(c, DNSMASQ, ks[i])];
    }
    assert ks[..|ks|] == ks;
  }

  method EmitFlag(b: Batch, o: Opt, on: bool)
    requires b.Valid() && b.sec == DNSMASQ
    modifies b
    ensures b.Writing(old(b.head), DNSMASQ, old(b.typ)) && b.patch == old(b.patch)[o := Flag(on)]
  {
    hide Begun, RunBatch;
    if on {
      b.SetKV(DNSMASQ, o, "1");
    } else {
      b.SetKV(DNSMASQ, o, "0");
    }
  }

  method EmitPanel(b: Batch, st: DnsSettings, aaaaSupported: bool)
    requires b.Valid() && b.sec == DNSMASQ && b.patch == map[]
    modifies b
    ensures b.Writing(old(b.head), DNSMASQ, old(b.typ)) && b.patch == PanelPatch(st, aaaaSupported)
  {
    hide Begun, RunBatch, Flag, PositiveOr;
    EmitFlag(b, "filter_aaaa", st.filterAaaa && aaaaSupported);
    EmitPositive(b, DNSMASQ, "cachesize", st.cacheSize);
    EmitPositive(b, DNSMASQ, "local_ttl", st.localTtl);
    EmitPositive(b, DNSMASQ, "min_cache_ttl", st.minCacheTtl);
    EmitPositive(b, DNSMASQ, "max_cache_ttl", st.maxCacheTtl);
    EmitFlag(b, "dnssec", st.dnssec);
    EmitFlag(b, "rebind_protection", st.rebindProtect);
    EmitFlag(b, "allservers", st.allServers);
  }

  method EmitRestore(b: Batch, ks: seq<Opt>, saved: map<string, string>)
    requires b.Valid() && b.sec == DNSMASQ && b.patch == map[]
    modifies b
    ensures b.Writing(old(b.head), DNSMASQ, old(b.typ)) && b.patch == map k | k in ks :: One(SavedValue(saved, k))
  {
    hide Begun, RunBatch, One, SavedValue;
    ghost var h, t := b.head, b.typ;
    for i := 0 to |ks|
      invariant b.Writing(h, DNSMASQ, t)
      invariant b.patch == map k | k in ks[..i] :: One(SavedValue(saved, k))
    {
      EmitIfSet(b, DNSMASQ, ks[i], SavedValue(saved, ks[i]));
    }
    assert ks[..|ks|] == ks;
  }

  /** Scalars: projected while in charge, written back when the tool lets go. */
  method EmitScalars(b: Batch, d: Dns, aaaaSupported: bool)
    requires b.Valid() && b.sec == DNSMASQ && b.patch == map[]
    modifies b
    ensures b.Writing(old(b.head), DNSMASQ, old(b.typ)) && b.patch == ScalarPatch(d, aaaaSupported)
  {
    hide Begun, RunBatch, PanelPatch;
    if d.settings.enabled || d.doh.enabled {
      if d.settings.enabled {
        EmitPanel(b, d.settings, aaaaSupported);
      }
      if d.doh.enabled || (d.settings.enabled && d.settings.noResolv && (d.settings.primary != "" || d.settings.secondary != "")) {
        b.SetKV(DNSMASQ, "noresolv", "1");
        b.SetKV(DNSMASQ, "resolvfile", RESOLV_AUTO);
      } else {
        b.DelK(DNSMASQ, "noresolv");
      }
    } else if d.settings.savedStock.Some? {
      EmitRestore(b, SCALARS, d.settings.savedStock.value);
    }
  }

  /** One list: withdraw what was written last time, append what is wanted now. */
  method EmitRelist(b: Batch, o: Opt, prev: seq<string>, next: seq<string>)
    requires b.Valid() && b.sec == DNSMASQ && o !in b.patch
    modifies b
    ensures b.Writing(old(b.head), DNSMASQ, old(b.typ))
    ensures b.patch == old(b.patch)[o := Relist(Get(old(b.head), DNSMASQ, o), prev, next)]
  {
    hide Begun, RunBatch, Drop;
    b.Touch(o);
    b.RemoveAll(DNSMASQ, o, prev);
    b.AppendAll(DNSMASQ, o, next);
  }

  method EmitMain(b: Batch, c: Config, d: Dns, aaaaSupported: bool)
    requires b.Valid() && b.result == c
    modifies b
    ensures b.Valid() && b.result == PatchSec(c, DNSMASQ, MainPatch(c, d, aaaaSupported))
  {
    hide Begun, RunBatch, PatchSec, ScalarPatch, Relist, DesiredServers, DesiredAddrs, DesiredRebind, Get;
    b.Resume(DNSMASQ);
    EmitScalars(b, d, aaaaSupported);
    NoListScalar(d, aaaaSupported);
    var servers := BuildServers(d);
    var addrs := BuildAddrs(d.records);
    var rebind := BuildRebind(d.settings);
    EmitRelist(b, "server", d.settings.prevServers, servers);
    EmitRelist(b, "address", d.settings.prevAddrs, addrs);
    EmitRelist(b, "rebind_domain", d.settings.prevRebind, rebind);
    BegunIsPatch(c, DNSMASQ, b.patch);
  }

  lemma NoListScalar(d: Dns, aaaaSupported: bool)
    ensures var p := ScalarPatch(d, aaaaSupported); "server" !in p && "address" !in p && "rebind_domain" !in p
    ensures "server" != "address" && "server" != "rebind_domain" && "address" != "rebind_domain"
  {
    hide ScalarPatch;
    ScalarPatchKeys(d, aaaaSupported);
    assert "server" !in SCALARS && "address" !in SCALARS && "rebind_domain" !in SCALARS;
  }

  // ---- records ----

  function RecordWrite(r: DnsRecord): Write {
    Write(UciName(r.id), "hostrecord", RecordPatch(r))
  }

  method EmitRecord(b: Batch, id: string, r: DnsRecord)
    requires b.Valid() && id == UciName(r.id)
    modifies b
    ensures b.Valid() && b.result == WriteAll(old(b.result), [RecordWrite(r)])
  {
    hide Begun, RunBatch, WriteAll, UciName;
    ghost var h := b.result;
    b.Open(id, "hostrecord");
    b.SetKV(id, MANAGED_BY, MARKER_DNS);
    b.SetKV(id, "name", r.domain);
    b.SetKV(id, "ip", r.address);
    BegunIsWrite(h, RecordWrite(r));
  }

  method EmitRecords(b: Batch, rs: seq<DnsRecord>) returns (keep: set<string>)
    requires b.Valid()
    modifies b
    ensures b.Valid() && b.result == WriteAll(old(b.result), DnsWrites(rs)) && keep == Names(DnsWrites(rs))
  {
    hide Begun, RunBatch, WriteAll, Names, UciName, RecordPatch;
    ghost var h := b.result;
    keep := {};
    NoWrites(h);
    for i := 0 to |rs|
      invariant b.Valid() && b.result == WriteAll(h, DnsWrites(rs[..i])) && keep == Names(DnsWrites(rs[..i]))
    {
      var r := rs[i];
      assert rs[..i + 1][..i] == rs[..i];
      if r.enabled && r.managed && !r.wildcard {
        var id := BuildUciName(r.id);
        keep := keep + {id};
        EmitRecord(b, id, r);
        WriteAllConcat(h, DnsWrites(rs[..i]), [RecordWrite(r)]);
        WriteAllOne(h, RecordWrite(r));
      } else {
        assert DnsWrites(rs[..i]) + [] == DnsWrites(rs[..i]);
      }
    }
    assert rs[..|rs|] == rs;
  }
}
