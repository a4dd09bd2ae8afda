/** The second half of `apply`: collecting what is no longer wanted, retiring the
    pools of sections that somebody else owns, choosing the DHCPv4 server, and the
    routes and policy rules in the network file. */
module Collect {
  import opened Text
  import opened Uci
  import opened Projection
  import opened Sidecar
  import opened DhcpSpec
  import opened Apply

  // ---- garbage collection ----

  lemma DeleteOneMore(c: Config, gone: set<string>, n: string)
    ensures Exec(c - gone, DelSec(n)) == c - (gone + {n})
  {
  }

  /** Delete the sections found under the marker before that are not kept. */
  method EmitOrphans(d: Batch, exist: set<string>, keep: set<string>)
    requires d.Valid()
    modifies d
    ensures d.Valid() && d.result == old(d.result) - (exist - keep)
  {
    hide Begun, RunBatch, Exec;
    ghost var c := d.result;
    var rest := exist;
    assert c - ((exist - rest) - keep) == c;
    while rest != {}
      invariant rest <= exist && d.Valid() && d.result == c - ((exist - rest) - keep)
      decreases |rest|
    {
      var n :| n in rest;
      if n !in keep {
        DeleteOneMore(c, (exist - rest) - keep, n);
        assert (exist - (rest - {n})) - keep == ((exist - rest) - keep) + {n};
        d.Emit(DelSec(n));
      } else {
        assert (exist - (rest - {n})) - keep == (exist - rest) - keep;
      }
      rest := rest - {n};
    }
    assert (exist - rest) - keep == exist - keep;
  }

  // ---- stock sections ----

  /** Retirement that has only come to the sections in `done`. */
  ghost function RetiredSoFar(c: Config, before: Config, ws: seq<Write>, busy: set<string>, drop: set<string>, done: set<string>): Config {
    map s | s in c ::
      if s in done && Stock(before, ws, s) then
        Section(c[s].typ, Overlay(c[s].opts, StockPatch(First(Get(before, s, "interface")), busy, s in drop)))
      else c[s]
  }

  lemma NoneRetired(c: Config, before: Config, ws: seq<Write>, busy: set<string>, drop: set<string>)
    ensures RetiredSoFar(c, before, ws, busy, drop, {}) == c
  {
  }

  lemma AllRetired(c: Config, before: Config, ws: seq<Write>, busy: set<string>, drop: set<string>)
    ensures RetiredSoFar(c, before, ws, busy, drop, before.Keys) == RetireStock(c, before, ws, busy, drop)
  {
    hide Overlay, StockPatch;
  }

  lemma OneMoreRetired(c: Config, before: Config, ws: seq<Write>, busy: set<string>, drop: set<string>, done: set<string>, s: string)
    requires s !in done
    ensures RetiredSoFar(c, before, ws, busy, drop, done + {s}) ==
      var so := RetiredSoFar(c, before, ws, busy, drop, done);
      if Stock(before, ws, s) then PatchSec(so, s, StockPatch(First(Get(before, s, "interface")), busy, s in drop)) else so
  {
    hide Overlay, StockPatch;
  }

  /** The three keys of one section that is not the tool's own. */
  method EmitRetire(d: Batch, s: string, iface: string, busy: set<string>, dropped: bool)
    requires d.Valid() && "" !in busy
    modifies d
    ensures d.Valid() && d.result == PatchSec(old(d.result), s, StockPatch(iface, busy, dropped))
  {
    hide Begun, RunBatch, PatchSec;
    ghost var c := d.result;
    d.Resume(s);
    if dropped {
      d.DelK(s, "start");
      d.DelK(s, "limit");
      if iface !in busy {
        d.SetKV(s, "ignore", "1");
      }
    } else if iface != "" && iface in busy {
      d.DelK(s, "ignore");
      d.DelK(s, "start");
      d.DelK(s, "limit");
    }
    assert d.patch == StockPatch(iface, busy, dropped);
    BegunIsPatch(c, s, d.patch);
  }

  method EmitStock(d: Batch, before: Config, ghost ws: seq<Write>, keep: set<string>, busy: set<string>, drop: set<string>)
    requires d.Valid() && keep == Names(ws) && "" !in busy
    modifies d
    ensures d.Valid() && d.result == RetireStock(old(d.result), before, ws, busy, drop)
  {
    hide Begun, RunBatch, RetireStock, StockPatch, PatchSec, Names, RetiredSoFar;
    ghost var c := d.result;
    var exist := Marked(before, MARKER);
    var rest := before.Keys;
    NoneRetired(c, before, ws, busy, drop);
    assert before.Keys - rest == {};
    while rest != {}
      invariant rest <= before.Keys && d.Valid()
      invariant d.result == RetiredSoFar(c, before, ws, busy, drop, before.Keys - rest)
      decreases |rest|
    {
      var s :| s in rest;
      OneMoreRetired(c, before, ws, busy, drop, before.Keys - rest, s);
      assert before.Keys - (rest - {s}) == (before.Keys - rest) + {s};
      rest := rest - {s};
      if before[s].typ == "dhcp" && s !in keep && s !in exist {
        EmitRetire(d, s, First(Get(before, s, "interface")), busy, s in drop);
      }
    }
    assert before.Keys - rest == before.Keys;
    AllRetired(c, before, ws, busy, drop);
  }

  /** A box that has odhcpd must not let it take DHCPv4 from dnsmasq. */
  method EmitServer(d: Batch, before: Config, svc: Service, any: bool)
    requires d.Valid()
    modifies d
    ensures d.Valid() && d.result == SelectServer(old(d.result), before, svc, any)
  {
    hide Begun, RunBatch, Put;
    if "odhcpd" in before {
      match svc
      case Odhcpd =>
        if any {
          d.Emit(SetOpt("odhcpd", "maindhcp", "1"));
        }
      case Dnsmasq =>
        d.Emit(SetOpt("odhcpd", "maindhcp", "0"));
      case NoService =>
    }
  }

  // ---- routes and rules ----

  method EmitPositive(d: Batch, id: string, o: Opt, n: int)
    requires d.Valid() && d.sec == id
    modifies d
    ensures d.Writing(old(d.head), id, old(d.typ)) && d.patch == old(d.patch)[o := PositiveOr(n)]
  {
    hide Begun, RunBatch;
    if n > 0 {
      d.SetKV(id, o, Decimal(n));
    } else {
      d.DelK(id, o);
    }
  }

  function RouteHead(r: Route): Patch {
    map["managed_by" := [MARKER],
        "interface" := if r.iface != "" && r.iface != "auto" then [r.iface] else [],
        "target" := if r.family == FAMILY_IPV6 then [r.target + "/" + Decimal(r.prefix)] else One(r.target),
        "netmask" := if r.family == FAMILY_IPV6 then [] else One(r.netmask)]
  }

  method EmitRouteHead(d: Batch, id: string, r: Route)
    requires d.Valid()
    modifies d
    ensures d.Writing(old(d.result), id, Some(if r.family == FAMILY_IPV6 then "route6" else "route"))
    ensures d.patch == RouteHead(r)
  {
    hide Begun, RunBatch, Decimal;
    var typ := "route";
    if r.family == FAMILY_IPV6 {
      typ := "route6";
    }
    d.Open(id, typ);
    d.SetKV(id, MANAGED_BY, MARKER);
    if r.iface != "" && r.iface != "auto" {
      d.SetKV(id, "interface", r.iface);
    } else {
      d.DelK(id, "interface");
    }
    if r.family == FAMILY_IPV6 {
      d.SetKV(id, "target", r.target + "/" + Decimal(r.prefix));
      d.DelK(id, "netmask");
    } else {
      d.SetKV(id, "target", r.target);
      d.SetKV(id, "netmask", r.netmask);
    }
  }

  method EmitNexthop(d: Batch, id: string, r: Route)
    requires d.Valid() && d.sec == id
    modifies d
    ensures d.Writing(old(d.head), id, old(d.typ))
    ensures d.patch == old(d.patch)["type" := if HasNexthop(r.kind) then [] else One(r.kind)]
                                   ["gateway" := if HasNexthop(r.kind) then One(r.gateway) else []]
  {
    hide Begun, RunBatch;
    if !HasNexthop(r.kind) {
      d.SetKV(id, "type", r.kind);
      d.DelK(id, "gateway");
    } else {
      d.DelK(id, "type");
      if r.gateway != "" {
        d.SetKV(id, "gateway", r.gateway);
      } else {
        assert One(r.gateway) == [];
        d.DelK(id, "gateway");
      }
    }
  }

  function RouteWrite(r: Route): Write {
    Write(UciName(r.id), if r.family == FAMILY_IPV6 then "route6" else "route", RoutePatch(r))
  }

  method EmitRoute(d: Batch, id: string, r: Route)
    requires d.Valid() && id == UciName(r.id)
    modifies d
    ensures d.Valid() && d.result == WriteAll(old(d.result), [RouteWrite(r)])
  {
    hide Begun, RunBatch, WriteAll, HasNexthop, PositiveOr, UciName, One, Decimal;
    ghost var h := d.result;
    EmitRouteHead(d, id, r);
    EmitNexthop(d, id, r);
    assert One(Decimal(r.metric)) == [Decimal(r.metric)] by { DecimalNotEmpty(r.metric); }
    d.SetKV(id, "metric", Decimal(r.metric));
    EmitPositive(d, id, "mtu", r.mtu);
    EmitPositive(d, id, "table", r.table);
    assert d.patch == RoutePatch(r);
    BegunIsWrite(h, RouteWrite(r));
  }

  lemma DecimalNotEmpty(n: int)
    ensures Decimal(n) != "" && One(Decimal(n)) == [Decimal(n)]
  {
  }

  method EmitRoutes(d: Batch, rs: seq<Route>) returns (keep: set<string>)
    requires d.Valid()
    modifies d
    ensures d.Valid() && d.result == WriteAll(old(d.result), RouteWrites(rs)) && keep == Names(RouteWrites(rs))
  {
    hide Begun, RunBatch, WriteAll, Names, UciName, RoutePatch;
    ghost var h := d.result;
    keep := {};
    NoWrites(h);
    for i := 0 to |rs|
      invariant d.Valid() && d.result == WriteAll(h, RouteWrites(rs[..i])) && keep == Names(RouteWrites(rs[..i]))
    {
      var r := rs[i];
      assert rs[..i + 1][..i] == rs[..i];
      if r.enabled && r.managed {
        var id := BuildUciName(r.id);
        keep := keep + {id};
        EmitRoute(d, id, r);
        WriteAllConcat(h, RouteWrites(rs[..i]), [RouteWrite(r)]);
        WriteAllOne(h, RouteWrite(r));
      } else {
        assert RouteWrites(rs[..i]) + [] == RouteWrites(rs[..i]);
      }
    }
    assert rs[..|rs|] == rs;
  }

  method EmitIfSet(d: Batch, id: string, o: Opt, v: string)
    requires d.Valid() && d.sec == id
    modifies d
    ensures d.Writing(old(d.head), id, old(d.typ)) && d.patch == old(d.patch)[o := One(v)]
  {
    hide Begun, RunBatch;
    if v != "" {
      d.SetKV(id, o, v);
    } else {
      assert One(v) == [];
      d.DelK(id, o);
    }
  }

  function RuleWrite(p: PolicyRule): Write {
    Write(UciName(p.id), if p.family == FAMILY_IPV6 then "rule6" else "rule", RulePatch(p))
  }

  method EmitRule(d: Batch, id: string, p: PolicyRule)
    requires d.Valid() && id == UciName(p.id)
    modifies d
    ensures d.Valid() && d.result == WriteAll(old(d.result), [RuleWrite(p)])
  {
    hide Begun, RunBatch, WriteAll, PositiveOr, UciName;
    ghost var h := d.result;
    var typ := "rule";
    if p.family == FAMILY_IPV6 {
      typ := "rule6";
    }
    d.Open(id, typ);
    d.SetKV(id, MANAGED_BY, MARKER);
    EmitIfSet(d, id, "src", p.src);
    EmitIfSet(d, id, "dest", p.dest);
    EmitIfSet(d, id, "in", p.inIface);
    d.SetKV(id, "lookup", p.lookup);
    EmitPositive(d, id, "priority", p.priority);
    assert d.patch == RulePatch(p);
    BegunIsWrite(h, RuleWrite(p));
  }

  method EmitRules(d: Batch, ps: seq<PolicyRule>) returns (keep: set<string>)
    requires d.Valid()
    modifies d
    ensures d.Valid() && d.result == WriteAll(old(d.result), RuleWrites(ps)) && keep == Names(RuleWrites(ps))
  {
    hide Begun, RunBatch, WriteAll, Names, UciName, RulePatch;
    ghost var h := d.result;
    keep := {};
    NoWrites(h);
    for i := 0 to |ps|
      invariant d.Valid() && d.result == WriteAll(h, RuleWrites(ps[..i])) && keep == Names(RuleWrites(ps[..i]))
    {
      var p := ps[i];
      assert ps[..i + 1][..i] == ps[..i];
      if p.enabled && p.managed {
        var id := BuildUciName(p.id);
        keep := keep + {id};
        EmitRule(d, id, p);
        WriteAllConcat(h, RuleWrites(ps[..i]), [RuleWrite(p)]);
        WriteAllOne(h, RuleWrite(p));
      } else {
        assert RuleWrites(ps[..i]) + [] == RuleWrites(ps[..i]);
      }
    }
    assert ps[..|ps|] == ps;
  }
}
