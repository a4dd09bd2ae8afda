/** Who owns what in the DHCP file. Three projections write to it in any order;
    each stamps its sections and collects the stamped ones it no longer wants. */
module Ownership {
  import opened Text
  import opened Uci
  import opened Projection
  import opened Sidecar
  import opened DhcpSpec
  import opened Served
  import opened DnsSpec
  import opened Rollback
  import opened Ipv6Spec
  import opened Machine

  // ---- one step ----

  function OwnMarker(op: Op): string {
    if op.IsDhcp() then MARKER else if op.IsDns() then MARKER_DNS else MARKER_V6
  }

  /** The sections that the save's own projection wants, stamped, in the DHCP file. */
  function WantedNames(w: World, op: Op): set<string> {
    if op.IsDhcp() then Names(DhcpWrites(StoreDhcp(w.st, op), w.net))
    else if op.IsDns() then Names(DnsWrites(StoreDns(w.dns, op).records))
    else Names(HostWrites(op.v6))
  }

  lemma RetireKeepsMarks(c: Config, before: Config, ws: seq<Write>, busy: set<string>, drop: set<string>, marker: string)
    ensures Marked(RetireStock(c, before, ws, busy, drop), marker) == Marked(c, marker)
    ensures RetireStock(c, before, ws, busy, drop).Keys == c.Keys
  {
    hide RetireStock, StockPatch;
    RetireAt(c, before, ws, busy, drop, "", MANAGED_BY);
    forall s | s in c ensures Get(RetireStock(c, before, ws, busy, drop), s, MANAGED_BY) == Get(c, s, MANAGED_BY) {
      RetireAt(c, before, ws, busy, drop, s, MANAGED_BY);
      StockPatchKeepsMarker(First(Get(before, s, "interface")), busy, s in drop, c[s].opts);
    }
    SameMarks(RetireStock(c, before, ws, busy, drop), c, marker);
  }

  lemma SelectKeepsMarks(c: Config, before: Config, svc: Service, any: bool, marker: string)
    ensures Marked(SelectServer(c, before, svc, any), marker) == Marked(c, marker)
    ensures SelectServer(c, before, svc, any).Keys == c.Keys
  {
    hide SelectServer;
    SelectAt(c, before, svc, any, "", MANAGED_BY);
    forall s | s in c ensures Get(SelectServer(c, before, svc, any), s, MANAGED_BY) == Get(c, s, MANAGED_BY) {
      SelectAt(c, before, svc, any, s, MANAGED_BY);
    }
    SameMarks(SelectServer(c, before, svc, any), c, marker);
  }

  lemma SameMarks(a: Config, b: Config, marker: string)
    requires a.Keys == b.Keys && forall s :: s in b ==> Get(a, s, MANAGED_BY) == Get(b, s, MANAGED_BY)
    ensures Marked(a, marker) == Marked(b, marker)
  {
    forall s | s in b ensures CarriesMarker(a[s], marker) <==> CarriesMarker(b[s], marker) {
      assert Get(a, s, MANAGED_BY) == Get(b, s, MANAGED_BY);
    }
  }

  lemma DhcpMarks(c: Config, st: Dhcp, net: Config, svc: Service, drop: set<string>, other: string)
    requires other != MARKER
    ensures var after, names := ApplyDhcp(c, st, net, svc, drop), Names(DhcpWrites(st, net));
      Marked(after, MARKER) == names && Marked(after, other) == Marked(c, other) - names
      && c.Keys - after.Keys == Marked(c, MARKER) - names
  {
    hide DhcpWrites, Project, RetireStock, SelectServer, Busy, AnyServing;
    var ws := DhcpWrites(st, net);
    var c1 := Project(c, ws, MARKER);
    var c2 := RetireStock(c1, c, ws, Busy(st.servers), drop);
    WritesAreProper(st, net);
    ProjectOwns(c, ws, MARKER);
    ProjectSpares(c, ws, MARKER, other);
    ProjectDeletesOwn(c, ws, MARKER);
    RetireKeepsMarks(c1, c, ws, Busy(st.servers), drop, MARKER);
    RetireKeepsMarks(c1, c, ws, Busy(st.servers), drop, other);
    SelectKeepsMarks(c2, c, svc, AnyServing(st.servers), MARKER);
    SelectKeepsMarks(c2, c, svc, AnyServing(st.servers), other);
  }

  lemma PatchKeepsMarks(c: Config, sec: string, p: Patch, marker: string)
    requires MANAGED_BY !in p
    ensures Marked(PatchSec(c, sec, p), marker) == Marked(c, marker)
    ensures PatchSec(c, sec, p).Keys == c.Keys
  {
    hide Overlay;
    if sec in c {
      OverlayGet(c[sec].opts, p, MANAGED_BY);
    }
  }

  lemma DnsMarks(c: Config, d: Dns, aaaa: bool, other: string)
    requires other != MARKER_DNS
    ensures var after, names := ApplyDns(c, d, aaaa), Names(DnsWrites(d.records));
      Marked(after, MARKER_DNS) == names && Marked(after, other) == Marked(c, other) - names
      && c.Keys - after.Keys == Marked(c, MARKER_DNS) - names
  {
    hide DnsWrites, Project, MainPatch, PatchSec;
    var p := MainPatch(c, d, aaaa);
    var c1 := PatchSec(c, DNSMASQ, p);
    MainPatchReads(c, d, aaaa);
    PatchKeepsMarks(c, DNSMASQ, p, MARKER_DNS);
    PatchKeepsMarks(c, DNSMASQ, p, other);
    RecordsStamped(d.records);
    ProjectOwns(c1, DnsWrites(d.records), MARKER_DNS);
    ProjectSpares(c1, DnsWrites(d.records), MARKER_DNS, other);
    ProjectDeletesOwn(c1, DnsWrites(d.records), MARKER_DNS);
  }

  /** One save: its own marker is on exactly the sections it wants, every other
      marker is lost by exactly the sections whose names it generated, and what it
      deletes carried its own marker. */
  lemma MarksAfter(w: World, op: Op, env: Env, other: string)
    requires other != OwnMarker(op)
    ensures var after := Step(w, op, env).dhcp;
      Marked(after, OwnMarker(op)) == WantedNames(w, op)
      && Marked(after, other) == Marked(w.dhcp, other) - WantedNames(w, op)
      && forall s :: s in w.dhcp && s !in after ==> CarriesMarker(w.dhcp[s], OwnMarker(op)) && s !in WantedNames(w, op)
  {
    hide DhcpWrites, DnsWrites, HostWrites, ApplyDhcp, ApplyDns, ApplyV6Dhcp, ApplyNet, ApplyV6Net, Names, Released;
    var after := Step(w, op, env).dhcp;
    if op.IsDhcp() {
      DhcpMarks(w.dhcp, StoreDhcp(w.st, op), w.net, env.svc, DropSet(w, op), other);
      InDifference(w.dhcp, after, Marked(w.dhcp, MARKER) - WantedNames(w, op));
    } else if op.IsDns() {
      DnsMarks(w.dhcp, StoreDns(w.dns, op), env.aaaa, other);
      InDifference(w.dhcp, after, Marked(w.dhcp, MARKER_DNS) - WantedNames(w, op));
    } else {
      V6Marks(w.dhcp, op.v6, other);
      V6Deletes(w.dhcp, op.v6);
    }
  }

  lemma InDifference(a: Config, b: Config, gone: set<string>)
    requires a.Keys - b.Keys == gone
    ensures forall s :: s in a && s !in b ==> s in gone
  {
    forall s | s in a && s !in b ensures s in gone {
      assert s in a.Keys - b.Keys;
    }
  }

  lemma V6Deletes(c: Config, v6: Ipv6)
    ensures forall s :: s in c && s !in ApplyV6Dhcp(c, v6) ==> s !in Names(HostWrites(v6))
  {
    hide HostWrites, LanWrites, WriteAll, Project, PatchEach, Released;
    var c1 := WriteAll(c, LanWrites(v6.lans));
    var c2 := Project(c1, HostWrites(v6), MARKER_V6);
    EachKeepsMarks(c2, Released(c, v6), RELEASE_DHCP, MARKER_V6);
    forall s | s in c && s in Names(HostWrites(v6)) ensures s in c2 {
      ProjectAt(c1, HostWrites(v6), MARKER_V6, s);
    }
  }

  // ---- whole runs ----

  /** What each projection wanted the last time it ran. */
  datatype Keeps = Keeps(main: set<string>, v6: set<string>, dns: set<string>)

  ghost function MarksOf(c: Config): Keeps {
    Keeps(Marked(c, MARKER), Marked(c, MARKER_V6), Marked(c, MARKER_DNS))
  }

  ghost function Kept(w: World, op: Op, k: Keeps): Keeps {
    if op.IsDhcp() then k.(main := WantedNames(w, op))
    else if op.IsDns() then k.(dns := WantedNames(w, op))
    else k.(v6 := WantedNames(w, op))
  }

  ghost function KeptOver(w0: World, es: seq<Event>): Keeps {
    if es == [] then MarksOf(w0.dhcp)
    else Kept(Run(w0, es[..|es| - 1]), es[|es| - 1].op, KeptOver(w0, es[..|es| - 1]))
  }

  /** The save generates no name that another projection's sections have now. */
  ghost predicate NoClash(w: World, op: Op, k: Keeps) {
    && (op.IsDhcp() ==> WantedNames(w, op) !! k.v6 && WantedNames(w, op) !! k.dns)
    && (op.IsDns() ==> WantedNames(w, op) !! k.main && WantedNames(w, op) !! k.v6)
    && (!op.IsDhcp() && !op.IsDns() ==> WantedNames(w, op) !! k.main && WantedNames(w, op) !! k.dns)
  }

  ghost predicate NoClashOver(w0: World, es: seq<Event>) {
    es == [] ||
    (NoClashOver(w0, es[..|es| - 1]) &&
     NoClash(Run(w0, es[..|es| - 1]), es[|es| - 1].op, KeptOver(w0, es[..|es| - 1])))
  }

  /** When the markers are on exactly what each projection wanted last, one more save
      keeps it so if and only if its names clash with nobody's. */
  lemma OwnershipStep(w: World, op: Op, env: Env)
    ensures MarksOf(Step(w, op, env).dhcp) == Kept(w, op, MarksOf(w.dhcp)) <==> NoClash(w, op, MarksOf(w.dhcp))
  {
    hide Step, WantedNames, Marked;
    MarkersDiffer();
    if op.IsDhcp() {
      MarksAfter(w, op, env, MARKER_V6);
      MarksAfter(w, op, env, MARKER_DNS);
    } else if op.IsDns() {
      MarksAfter(w, op, env, MARKER);
      MarksAfter(w, op, env, MARKER_V6);
    } else {
      MarksAfter(w, op, env, MARKER);
      MarksAfter(w, op, env, MARKER_DNS);
    }
  }

  /** At every time of the run the markers are on exactly what each projection wanted last. */
  ghost predicate AlwaysOwned(w0: World, es: seq<Event>) {
    MarksOf(Run(w0, es).dhcp) == KeptOver(w0, es) && (es == [] || AlwaysOwned(w0, es[..|es| - 1]))
  }

  /** Marker ownership. In any interleaving of saves, the sections that carry a marker
      are at every time exactly those that the last projection under that marker wanted,
      if and only if no projection takes a name that another's sections have. */
  lemma {:induction false} OwnershipOverRuns(w0: World, es: seq<Event>)
    ensures AlwaysOwned(w0, es) <==> NoClashOver(w0, es)
  {
    hide Step, Kept, MarksOf, NoClash;
    if es != [] {
      var init := es[..|es| - 1];
      OwnershipOverRuns(w0, init);
      if AlwaysOwned(w0, init) {
        OwnershipStep(Run(w0, init), es[|es| - 1].op, es[|es| - 1].env);
      }
    }
  }

  // ---- sections that nobody owns ----

  predicate Unowned(c: Config, s: string) {
    s in c && !CarriesMarker(c[s], MARKER) && !CarriesMarker(c[s], MARKER_V6) && !CarriesMarker(c[s], MARKER_DNS)
  }

  /** Every name that the run's projections generated for sections of their own. */
  ghost function Generated(w0: World, es: seq<Event>): set<string> {
    if es == [] then {}
    else Generated(w0, es[..|es| - 1]) + WantedNames(Run(w0, es[..|es| - 1]), es[|es| - 1].op)
  }

  lemma UnownedStep(w: World, op: Op, env: Env, s: string)
    requires Unowned(w.dhcp, s)
    ensures s in Step(w, op, env).dhcp
    ensures Unowned(Step(w, op, env).dhcp, s) <==> s !in WantedNames(w, op)
  {
    hide Step, WantedNames, CarriesMarker;
    MarkersDiffer();
    var after := Step(w, op, env).dhcp;
    forall m | m == MARKER || m == MARKER_V6 || m == MARKER_DNS
      ensures m != OwnMarker(op) ==> Marked(after, m) == Marked(w.dhcp, m) - WantedNames(w, op)
      ensures Marked(after, OwnMarker(op)) == WantedNames(w, op)
      ensures s in after
    {
      if m != OwnMarker(op) {
        MarksAfter(w, op, env, m);
      } else {
        MarksAfter(w, op, env, if m == MARKER then MARKER_V6 else MARKER);
      }
    }
    assert s in WantedNames(w, op) <==> s in Marked(after, OwnMarker(op));
    assert s !in Marked(w.dhcp, MARKER) && s !in Marked(w.dhcp, MARKER_V6) && s !in Marked(w.dhcp, MARKER_DNS);
    assert Unowned(after, s) <==> s !in Marked(after, MARKER) && s !in Marked(after, MARKER_V6) && s !in Marked(after, MARKER_DNS);
  }

  /** The section is there and without a marker at every time of the run. */
  ghost predicate AlwaysUnowned(w0: World, es: seq<Event>, s: string) {
    Unowned(Run(w0, es).dhcp, s) && (es == [] || AlwaysUnowned(w0, es[..|es| - 1], s))
  }

  /** A section without a marker survives a run, without one at any time, exactly if no
      projection of the run gives a section of its own the same name. */
  lemma {:induction false} UnownedSurvives(w0: World, es: seq<Event>, s: string)
    requires Unowned(w0.dhcp, s)
    ensures AlwaysUnowned(w0, es, s) <==> s !in Generated(w0, es)
  {
    hide Step, WantedNames, Unowned;
    if es != [] {
      var init := es[..|es| - 1];
      UnownedSurvives(w0, init, s);
      if AlwaysUnowned(w0, init, s) {
        UnownedStep(Run(w0, init), es[|es| - 1].op, es[|es| - 1].env, s);
      }
    }
  }
}
