/** The router tool as a state machine: the two UCI files and the working state,
    changed by saves. Each save stores its data and runs one of the three
    projections. The theorems here are about whole runs, in any interleaving. */
module Machine {
  import opened Text
  import opened Uci
  import opened Projection
  import opened Sidecar
  import opened DhcpSpec
  import opened Served
  import opened DnsSpec
  import opened Rollback
  import opened Ipv6Spec

  datatype World = World(dhcp: Config, net: Config, st: Dhcp, v6: Ipv6, dns: Dns)

  /** What the machine looks like to a save: the DHCP daemon that is installed, and
      whether its dnsmasq can filter AAAA answers. */
  datatype Env = Env(svc: Service, aaaa: bool)

  datatype Op =
    | SaveServers(servers: seq<DhcpServer>)
    | SaveStatics(statics: seq<StaticLease>)
    | SaveAcl(acl: Acl)
    | SaveRoutes(routes: seq<Route>)
    | SaveRules(rules: seq<PolicyRule>)
    | SavePushMode(mode: string)
    | SaveIpv6(v6: Ipv6)
    | SaveDnsSettings(settings: DnsSettings)
    | SaveDoh(doh: DnsDoh)
    | SaveDnsRecords(records: seq<DnsRecord>)
    | SaveDnsRoutes(dnsRoutes: seq<DnsRoute>)
  {
    predicate IsDhcp() {
      SaveServers? || SaveStatics? || SaveAcl? || SaveRoutes? || SaveRules? || SavePushMode?
    }

    predicate IsDns() {
      SaveDnsSettings? || SaveDoh? || SaveDnsRecords? || SaveDnsRoutes?
    }
  }

  // ---- one save ----

  function StoreDhcp(st: Dhcp, op: Op): Dhcp
    requires op.IsDhcp()
  {
    match op
    case SaveServers(x) => st.(servers := x)
    case SaveStatics(x) => st.(statics := x)
    case SaveAcl(x) => st.(acl := x)
    case SaveRoutes(x) => st.(routes := x)
    case SaveRules(x) => st.(rules := x)
    case SavePushMode(x) => st.(pushMode := x)
  }

  function StoreDns(d: Dns, op: Op): Dns
    requires op.IsDns()
  {
    match op
    case SaveDnsSettings(x) => StoreSettings(d, x)
    case SaveDoh(x) => d.(doh := x)
    case SaveDnsRecords(x) => d.(records := x)
    case SaveDnsRoutes(x) => d.(routes := x)
  }

  /** Imported, never edited pools that the user has just removed. */
  function Dropped(before: seq<DhcpServer>, after: seq<DhcpServer>): set<string> {
    var kept := set s | s in after :: s.id;
    set s | s in before && !s.managed && s.id !in kept :: UciName(s.id)
  }

  function DropSet(w: World, op: Op): set<string> {
    match op
    case SaveServers(x) => Dropped(w.st.servers, x)
    case _ => {}
  }

  function Step(w: World, op: Op, env: Env): World {
    if op.IsDhcp() then
      var st := StoreDhcp(w.st, op);
      w.(dhcp := ApplyDhcp(w.dhcp, st, w.net, env.svc, DropSet(w, op)), net := ApplyNet(w.net, st), st := st)
    else if op.IsDns() then
      var d := StoreDns(w.dns, op);
      w.(dhcp := ApplyDns(w.dhcp, d, env.aaaa), dns := Booked(w.dhcp, d))
    else
      w.(dhcp := ApplyV6Dhcp(w.dhcp, op.v6), net := ApplyV6Net(w.net, op.v6, Released(w.dhcp, op.v6)), v6 := op.v6)
  }

  datatype Event = Event(op: Op, env: Env)

  function Run(w: World, es: seq<Event>): World {
    if es == [] then w else Step(Run(w, es[..|es| - 1]), es[|es| - 1].op, es[|es| - 1].env)
  }

  // ---- the stock dnsmasq section over a run ----

  /** Projections other than the DNS one leave the stock section as it is. */
  lemma StockSectionSpared(w: World, op: Op, env: Env)
    requires Neutral(w.dhcp) && !op.IsDns()
    ensures DNSMASQ in Step(w, op, env).dhcp && Step(w, op, env).dhcp[DNSMASQ] == w.dhcp[DNSMASQ]
  {
    hide DhcpWrites, ApplyDhcp, ApplyV6Dhcp, ApplyNet, ApplyV6Net, HostWrites, LanWrites;
    DnsmasqIsNoName();
    if op.IsDhcp() {
      var st := StoreDhcp(w.st, op);
      SparedByApply(w.dhcp, st, w.net, env.svc, DropSet(w, op));
    } else {
      HostsStamped(op.v6);
      LansUnmarked(op.v6.lans, DNSMASQ);
      V6LeavesAlone(w.dhcp, op.v6, DNSMASQ);
    }
  }

  lemma SparedByApply(c: Config, st: Dhcp, net: Config, svc: Service, drop: set<string>)
    requires Neutral(c)
    ensures DNSMASQ in ApplyDhcp(c, st, net, svc, drop) && ApplyDhcp(c, st, net, svc, drop)[DNSMASQ] == c[DNSMASQ]
  {
    hide DhcpWrites, ApplyDhcp, Proper, StockPatch;
    WritesAreProper(st, net);
    NamesOfProper(st, net);
    DnsmasqIsNoName();
    assert DNSMASQ !in Names(DhcpWrites(st, net));
    ApplyOther(c, st, net, svc, drop, DNSMASQ, "");
    var after := ApplyDhcp(c, st, net, svc, drop);
    forall o ensures OptGet(after[DNSMASQ].opts, o) == OptGet(c[DNSMASQ].opts, o) {
      DnsmasqIsNotOdhcpd();
      ApplyOther(c, st, net, svc, drop, DNSMASQ, o);
      assert Get(after, DNSMASQ, o) == Get(c, DNSMASQ, o);
    }
    OptsExtensional(after[DNSMASQ].opts, c[DNSMASQ].opts);
  }

  lemma DnsmasqIsNotOdhcpd()
    ensures DNSMASQ != "odhcpd"
  {
    assert DNSMASQ[0] == '@';
  }

  lemma NamesOfProper(st: Dhcp, net: Config)
    ensures forall s :: s in Names(DhcpWrites(st, net)) ==> IsName(s)
  {
    hide DhcpWrites;
    WritesAreProper(st, net);
    forall s | s in Names(DhcpWrites(st, net)) ensures IsName(s) {
      var w :| w in DhcpWrites(st, net) && w.sec == s;
      assert Proper(w, st, net);
    }
  }

  /** Some save of the run took the stock section over. */
  ghost predicate EverInCharge(w: World, es: seq<Event>) {
    if es == [] then false
    else
      var before := Run(w, es[..|es| - 1]);
      var op := es[|es| - 1].op;
      EverInCharge(w, es[..|es| - 1]) || (op.IsDns() && InCharge(StoreDns(before.dns, op)))
  }

  ghost predicate DnsTracked(w0: World, w: World, taken: bool) {
    Neutral(w.dhcp) && ScalarsTracked(w0.dhcp, w.dhcp, w.dns, taken)
  }

  lemma {:induction false} TrackedOverRun(w0: World, es: seq<Event>)
    requires Neutral(w0.dhcp) && w0.dns.settings.savedStock.None?
    ensures DnsTracked(w0, Run(w0, es), EverInCharge(w0, es))
  {
    hide ScalarsTracked, Step;
    if es == [] {
      TrackedAtStart(w0);
    } else {
      var w, e := Run(w0, es[..|es| - 1]), es[|es| - 1];
      TrackedOverRun(w0, es[..|es| - 1]);
      TrackedByStep(w0, w, e.op, e.env, EverInCharge(w0, es[..|es| - 1]));
    }
  }

  lemma TrackedAtStart(w0: World)
    requires Neutral(w0.dhcp) && w0.dns.settings.savedStock.None?
    ensures DnsTracked(w0, w0, false)
  {
  }

  lemma TrackedByStep(w0: World, w: World, op: Op, env: Env, taken: bool)
    requires DnsTracked(w0, w, taken)
    ensures DnsTracked(w0, Step(w, op, env), taken || (op.IsDns() && InCharge(StoreDns(w.dns, op))))
  {
    hide ApplyDns, ApplyDhcp, ApplyV6Dhcp, ApplyNet, ApplyV6Net, Booked;
    if op.IsDns() {
      StaysNeutral(w.dhcp, StoreDns(w.dns, op), env.aaaa);
      SameSnapshot(w.dns, op);
      TrackedStep(w0.dhcp, w.dhcp, StoreDns(w.dns, op), env.aaaa, taken);
    } else {
      StockSectionSpared(w, op, env);
    }
  }

  /** Storing new DNS data does not touch the snapshot or the written lists. */
  lemma SameSnapshot(d: Dns, op: Op)
    requires op.IsDns()
    ensures StoreDns(d, op).settings.savedStock == d.settings.savedStock
    ensures StoreDns(d, op).settings.prevServers == d.settings.prevServers
    ensures StoreDns(d, op).settings.prevAddrs == d.settings.prevAddrs
  {
  }

  predicate SavesDns(es: seq<Event>) {
    es != [] && (SavesDns(es[..|es| - 1]) || es[|es| - 1].op.IsDns())
  }

  /** From the first DNS save on a snapshot is held exactly while the tool is in charge. */
  lemma {:induction false} SnapshotIffInCharge(w0: World, es: seq<Event>)
    requires w0.dns.settings.savedStock.None?
    ensures var d := Run(w0, es).dns; d.settings.savedStock.Some? <==> InCharge(d) && SavesDns(es)
  {
    hide ApplyDns, ApplyDhcp, ApplyV6Dhcp, ApplyNet, ApplyV6Net, DesiredServers, DesiredAddrs, DesiredRebind, Snapshot;
    if es != [] {
      SnapshotIffInCharge(w0, es[..|es| - 1]);
    }
  }

  /** DNS rollback. From a state without a snapshot, after any run of saves of every
      kind at whose end DNS settings and DoH are both off, every managed scalar reads
      as it did at the start; and it holds exactly the same values if and only if the
      tool was never in charge or what it held can be restored from its reading. */
  lemma RollbackOverRuns(w0: World, es: seq<Event>, k: Opt)
    requires Neutral(w0.dhcp) && w0.dns.settings.savedStock.None?
    requires k in SCALARS && !InCharge(Run(w0, es).dns)
    ensures UciGet(Run(w0, es).dhcp, DNSMASQ, k) == UciGet(w0.dhcp, DNSMASQ, k)
    ensures Get(Run(w0, es).dhcp, DNSMASQ, k) == Get(w0.dhcp, DNSMASQ, k)
      <==> !EverInCharge(w0, es) || Restorable(Get(w0.dhcp, DNSMASQ, k))
  {
    hide Run, EverInCharge, Neutral;
    TrackedOverRun(w0, es);
    SnapshotIffInCharge(w0, es);
    ReadsBack(Get(w0.dhcp, DNSMASQ, k));
    RestorableIsFixed(Get(w0.dhcp, DNSMASQ, k));
  }

  // ---- the stock lists over a run ----

  /** The server values withdrawn so far: everything written before the last write. */
  ghost function WithdrawnServers(w: World, es: seq<Event>): seq<string> {
    if es == [] then []
    else
      var before := Run(w, es[..|es| - 1]);
      WithdrawnServers(w, es[..|es| - 1]) + (if es[|es| - 1].op.IsDns() then before.dns.settings.prevServers else [])
  }

  ghost function WithdrawnAddrs(w: World, es: seq<Event>): seq<string> {
    if es == [] then []
    else
      var before := Run(w, es[..|es| - 1]);
      WithdrawnAddrs(w, es[..|es| - 1]) + (if es[|es| - 1].op.IsDns() then before.dns.settings.prevAddrs else [])
  }

  /** In every reachable state the stock lists are the original ones less what the
      tool withdrew, followed by exactly what the bookkeeping says was written last. */
  ghost predicate ListsTracked(w0: World, es: seq<Event>) {
    var w := Run(w0, es);
    Neutral(w.dhcp) &&
    ListTracked(Get(w0.dhcp, DNSMASQ, "server"), Get(w.dhcp, DNSMASQ, "server"), WithdrawnServers(w0, es), w.dns.settings.prevServers) &&
    ListTracked(Get(w0.dhcp, DNSMASQ, "address"), Get(w.dhcp, DNSMASQ, "address"), WithdrawnAddrs(w0, es), w.dns.settings.prevAddrs)
  }

  lemma {:induction false} ListsOverRuns(w0: World, es: seq<Event>)
    requires Neutral(w0.dhcp) && w0.dns.settings.prevServers == [] && w0.dns.settings.prevAddrs == []
    ensures ListsTracked(w0, es)
  {
    hide ListTracked, ListsTracked, Neutral;
    if es == [] {
      ListsAtStart(w0);
    } else {
      var e := es[|es| - 1];
      ListsOverRuns(w0, es[..|es| - 1]);
      if e.op.IsDns() {
        DnsListStep(w0, es);
      } else {
        OtherListStep(w0, es);
      }
    }
  }

  lemma OtherListStep(w0: World, es: seq<Event>)
    requires es != [] && !es[|es| - 1].op.IsDns() && ListsTracked(w0, es[..|es| - 1])
    ensures ListsTracked(w0, es)
  {
    hide ListTracked, Step;
    var w, e := Run(w0, es[..|es| - 1]), es[|es| - 1];
    StockSectionSpared(w, e.op, e.env);
    DnsUntouched(w, e.op, e.env);
    assert WithdrawnServers(w0, es) == WithdrawnServers(w0, es[..|es| - 1]);
    assert WithdrawnAddrs(w0, es) == WithdrawnAddrs(w0, es[..|es| - 1]);
  }

  lemma DnsUntouched(w: World, op: Op, env: Env)
    requires !op.IsDns()
    ensures Step(w, op, env).dns == w.dns
  {
    hide ApplyDhcp, ApplyV6Dhcp, ApplyNet, ApplyV6Net;
  }

  lemma ListsAtStart(w0: World)
    requires Neutral(w0.dhcp) && w0.dns.settings.prevServers == [] && w0.dns.settings.prevAddrs == []
    ensures ListsTracked(w0, [])
  {
    hide ListTracked;
    EmptyTracked(Get(w0.dhcp, DNSMASQ, "server"));
    EmptyTracked(Get(w0.dhcp, DNSMASQ, "address"));
  }

  lemma EmptyTracked(l: seq<string>)
    ensures ListTracked(l, l, [], [])
  {
    DropMembers(l, []);
  }

  lemma DnsListStep(w0: World, es: seq<Event>)
    requires es != [] && es[|es| - 1].op.IsDns() && ListsTracked(w0, es[..|es| - 1])
    ensures ListsTracked(w0, es)
  {
    hide ListTracked, ApplyDns, ApplyDhcp, ApplyV6Dhcp, ApplyNet, ApplyV6Net, Snapshot, Relist, DesiredServers, DesiredAddrs, DesiredRebind;
    var w, e := Run(w0, es[..|es| - 1]), es[|es| - 1];
    var d := StoreDns(w.dns, e.op);
    StaysNeutral(w.dhcp, d, e.env.aaaa);
    SameSnapshot(w.dns, e.op);
    ListsAfter(w.dhcp, d, e.env.aaaa);
    RelistTracked(Get(w0.dhcp, DNSMASQ, "server"), Get(w.dhcp, DNSMASQ, "server"),
                  WithdrawnServers(w0, es[..|es| - 1]), w.dns.settings.prevServers, DesiredServers(d));
    RelistTracked(Get(w0.dhcp, DNSMASQ, "address"), Get(w.dhcp, DNSMASQ, "address"),
                  WithdrawnAddrs(w0, es[..|es| - 1]), w.dns.settings.prevAddrs, DesiredAddrs(d.records));
  }

  /** The bookkeeping is always exactly what the last DNS step wanted. */
  lemma BookedIsWanted(w: World, op: Op, env: Env)
    requires op.IsDns()
    ensures var d := Step(w, op, env).dns;
      d.settings.prevServers == DesiredServers(d) && d.settings.prevAddrs == DesiredAddrs(d.records)
  {
    hide ApplyDns, Snapshot;
    var d := StoreDns(w.dns, op);
    SameDesired(d, Booked(w.dhcp, d));
  }

  lemma SameDesired(d: Dns, e: Dns)
    requires e.doh == d.doh && e.routes == d.routes && e.settings.enabled == d.settings.enabled
    requires e.settings.primary == d.settings.primary && e.settings.secondary == d.settings.secondary
    ensures DesiredServers(e) == DesiredServers(d)
  {
  }

  /** List conservation. After any run, whatever the tool never wrote is still there
      with the same multiplicity and in the same order. */
  lemma ConservationOverRuns(w0: World, es: seq<Event>, written: seq<string>)
    requires Neutral(w0.dhcp) && w0.dns.settings.prevServers == [] && w0.dns.settings.prevAddrs == []
    requires forall v :: v in WithdrawnServers(w0, es) || v in Run(w0, es).dns.settings.prevServers ==> v in written
    requires forall v :: v in WithdrawnAddrs(w0, es) || v in Run(w0, es).dns.settings.prevAddrs ==> v in written
    ensures Drop(Get(Run(w0, es).dhcp, DNSMASQ, "server"), written) == Drop(Get(w0.dhcp, DNSMASQ, "server"), written)
    ensures Drop(Get(Run(w0, es).dhcp, DNSMASQ, "address"), written) == Drop(Get(w0.dhcp, DNSMASQ, "address"), written)
  {
    hide Run, WithdrawnServers, WithdrawnAddrs, ListTracked;
    ListsOverRuns(w0, es);
    var w := Run(w0, es);
    ForeignValuesKept(Get(w0.dhcp, DNSMASQ, "server"), Get(w.dhcp, DNSMASQ, "server"),
                      WithdrawnServers(w0, es), w.dns.settings.prevServers, written);
    ForeignValuesKept(Get(w0.dhcp, DNSMASQ, "address"), Get(w.dhcp, DNSMASQ, "address"),
                      WithdrawnAddrs(w0, es), w.dns.settings.prevAddrs, written);
  }

  /** Disabling everything leaves no value in the lists that the tool ever wrote. */
  lemma NothingLeftOverRuns(w0: World, es: seq<Event>)
    requires Neutral(w0.dhcp) && w0.dns.settings.prevServers == [] && w0.dns.settings.prevAddrs == []
    requires Run(w0, es).dns.settings.prevServers == [] && Run(w0, es).dns.settings.prevAddrs == []
    ensures forall v :: v in WithdrawnServers(w0, es) ==> v !in Get(Run(w0, es).dhcp, DNSMASQ, "server")
    ensures forall v :: v in WithdrawnAddrs(w0, es) ==> v !in Get(Run(w0, es).dhcp, DNSMASQ, "address")
  {
    hide Run, WithdrawnServers, WithdrawnAddrs, ListTracked;
    ListsOverRuns(w0, es);
    var w := Run(w0, es);
    NothingLeftBehind(Get(w0.dhcp, DNSMASQ, "server"), Get(w.dhcp, DNSMASQ, "server"), WithdrawnServers(w0, es));
    NothingLeftBehind(Get(w0.dhcp, DNSMASQ, "address"), Get(w.dhcp, DNSMASQ, "address"), WithdrawnAddrs(w0, es));
  }

  // ---- an input that shows the failure ----

  function AllOff(w: World): World {
    w.(dhcp := StockWith("cachesize", ["1", "2"]), dns := w.dns.(settings := OFF))
  }

  function TurnedOn(env: Env): Event {
    Event(SaveDnsSettings(OFF.(enabled := true)), env)
  }

  function TurnedOff(env: Env): Event {
    Event(SaveDnsSettings(OFF), env)
  }

  lemma OnAndOff(w: World, env: Env)
    requires !w.dns.doh.enabled
    ensures EverInCharge(w, [TurnedOn(env), TurnedOff(env)])
    ensures !InCharge(Run(w, [TurnedOn(env), TurnedOff(env)]).dns)
  {
    hide ApplyDns, Snapshot, DesiredServers, DesiredAddrs, DesiredRebind;
    var e1, e2 := TurnedOn(env), TurnedOff(env);
    assert [e1, e2][..1] == [e1] && [e1][..0] == [];
    assert Run(w, [e1]).dns.doh == w.dns.doh;
    assert EverInCharge(w, [e1]);
  }

  /** A scalar that is a list of two comes back as one value, after the tool has been
      turned on and off. */
  lemma ListComesBackJoined(w: World, env: Env)
    requires !w.dns.doh.enabled
    ensures Get(Run(AllOff(w), [TurnedOn(env), TurnedOff(env)]).dhcp, DNSMASQ, "cachesize") != ["1", "2"]
  {
    hide Run, EverInCharge, TurnedOn, TurnedOff;
    OnAndOff(AllOff(w), env);
    assert MANAGED_BY != "cachesize" && "managed_v6" != "cachesize";
    assert SCALARS[1] == "cachesize";
    RollbackOverRuns(AllOff(w), [TurnedOn(env), TurnedOff(env)], "cachesize");
  }
}
