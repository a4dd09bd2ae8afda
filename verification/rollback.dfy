/** What survives between DNS steps: the stock scalars come back, the stock list
    entries stay, and nothing the tool wrote is left behind. */
module Rollback {
  import opened Text
  import opened Uci
  import opened Projection
  import opened Sidecar
  import opened DnsSpec

  // ---- the stock section after a step ----

  lemma {:induction false} RecordsStamped(rs: seq<DnsRecord>)
    ensures AllStamped(DnsWrites(rs), MARKER_DNS)
    ensures forall w :: w in DnsWrites(rs) ==> IsName(w.sec)
  {
    if rs != [] {
      var r := rs[|rs| - 1];
      RecordsStamped(rs[..|rs| - 1]);
      UciNameIsName(r.id);
      assert RecordPatch(r)[MANAGED_BY] == [MARKER_DNS];
    }
  }

  /** Options of the stock section that decide who owns it. */
  predicate Neutral(c: Config) {
    DNSMASQ in c && c[DNSMASQ].typ != "dhcp" && Get(c, DNSMASQ, MANAGED_BY) == [] && Get(c, DNSMASQ, "managed_v6") == []
  }

  lemma MainPatchReads(c: Config, d: Dns, aaaa: bool)
    ensures var p := MainPatch(c, d, aaaa);
      "server" in p && p["server"] == Relist(Get(c, DNSMASQ, "server"), d.settings.prevServers, DesiredServers(d)) &&
      "address" in p && p["address"] == Relist(Get(c, DNSMASQ, "address"), d.settings.prevAddrs, DesiredAddrs(d.records)) &&
      "rebind_domain" in p &&
      p["rebind_domain"] == Relist(Get(c, DNSMASQ, "rebind_domain"), d.settings.prevRebind, DesiredRebind(d.settings))
    ensures forall k :: k in SCALARS ==>
      (k in MainPatch(c, d, aaaa) <==> k in ScalarPatch(d, aaaa)) &&
      (k in ScalarPatch(d, aaaa) ==> MainPatch(c, d, aaaa)[k] == ScalarPatch(d, aaaa)[k])
    ensures MANAGED_BY !in MainPatch(c, d, aaaa) && "managed_v6" !in MainPatch(c, d, aaaa)
  {
    hide ScalarPatch, Relist, DesiredServers, DesiredAddrs, DesiredRebind;
    ScalarPatchKeys(d, aaaa);
    ListsAreNoScalars();
    var s := ScalarPatch(d, aaaa);
    ListUpdates(s, Relist(Get(c, DNSMASQ, "server"), d.settings.prevServers, DesiredServers(d)),
                Relist(Get(c, DNSMASQ, "address"), d.settings.prevAddrs, DesiredAddrs(d.records)),
                Relist(Get(c, DNSMASQ, "rebind_domain"), d.settings.prevRebind, DesiredRebind(d.settings)));
  }

  lemma ListsAreNoScalars()
    ensures "server" !in SCALARS && "address" !in SCALARS && "rebind_domain" !in SCALARS
    ensures MANAGED_BY !in SCALARS && "managed_v6" !in SCALARS
  {
  }

  lemma ListUpdates(s: Patch, a: seq<string>, b: seq<string>, c: seq<string>)
    ensures var p := s["server" := a]["address" := b]["rebind_domain" := c];
      p["server"] == a && p["address"] == b && p["rebind_domain"] == c
    ensures var p := s["server" := a]["address" := b]["rebind_domain" := c];
      forall k :: k != "server" && k != "address" && k != "rebind_domain" ==> (k in p <==> k in s) && (k in s ==> p[k] == s[k])
    ensures MANAGED_BY != "server" && MANAGED_BY != "address" && MANAGED_BY != "rebind_domain"
    ensures "managed_v6" != "server" && "managed_v6" != "address" && "managed_v6" != "rebind_domain"
  {
  }

  /** After a step the stock section holds the patch and nothing else changed in it. */
  lemma MainAfter(c: Config, d: Dns, aaaa: bool, o: Opt)
    requires Neutral(c)
    ensures DNSMASQ in ApplyDns(c, d, aaaa) && ApplyDns(c, d, aaaa)[DNSMASQ].typ == c[DNSMASQ].typ
    ensures Get(ApplyDns(c, d, aaaa), DNSMASQ, o) == Wanted(c[DNSMASQ].opts, MainPatch(c, d, aaaa), o)
  {
    hide MainPatch, Project, Overlay, DnsWrites;
    var p := MainPatch(c, d, aaaa);
    RecordsStamped(d.records);
    DnsmasqIsNoName();
    MainPatchReads(c, d, aaaa);
    OverlayGet(c[DNSMASQ].opts, p, MANAGED_BY);
    OverlayGet(c[DNSMASQ].opts, p, o);
    ProjectAt(PatchSec(c, DNSMASQ, p), DnsWrites(d.records), MARKER_DNS, DNSMASQ);
  }

  lemma StaysNeutral(c: Config, d: Dns, aaaa: bool)
    requires Neutral(c)
    ensures Neutral(ApplyDns(c, d, aaaa))
  {
    hide ApplyDns, MainPatch;
    MainPatchReads(c, d, aaaa);
    MainAfter(c, d, aaaa, MANAGED_BY);
    MainAfter(c, d, aaaa, "managed_v6");
  }

  // ---- scalars ----

  /** A value that reading and writing back reproduces. */
  predicate Restorable(vs: seq<string>) {
    vs == [] || (|vs| == 1 && vs[0] != "" && Trimmed(vs[0]))
  }

  lemma RestorableIsFixed(vs: seq<string>)
    ensures Restorable(vs) <==> One(TrimSpace(Join(vs, " "))) == vs
  {
    if |vs| == 1 {
      TrimmedIsFixed(vs[0]);
    }
  }

  lemma {:induction false} TrimRightEnds(s: string)
    ensures TrimRight(s) != "" ==> !IsSpace(TrimRight(s)[|TrimRight(s)| - 1])
    ensures TrimRight(s) != "" ==> s != "" && TrimRight(s)[0] == s[0]
  {
    if s != "" && IsSpace(s[|s| - 1]) {
      TrimRightEnds(s[..|s| - 1]);
    }
  }

  lemma {:induction false} TrimLeftStarts(s: string)
    ensures TrimLeft(s) != "" ==> !IsSpace(TrimLeft(s)[0])
  {
    if s != "" && IsSpace(s[0]) {
      TrimLeftStarts(s[1..]);
    }
  }

  lemma TrimTwice(s: string)
    ensures TrimSpace(TrimSpace(s)) == TrimSpace(s)
  {
    TrimLeftStarts(s);
    TrimRightEnds(TrimLeft(s));
    TrimmedIsFixed(TrimSpace(s));
  }

  /** What a value reads as does not change by writing it back. */
  lemma ReadsBack(vs: seq<string>)
    ensures TrimSpace(Join(One(TrimSpace(Join(vs, " "))), " ")) == TrimSpace(Join(vs, " "))
  {
    TrimTwice(Join(vs, " "));
  }

  /** Where a scalar stands, relative to the configuration before the first
      take-over: untouched, or held by the tool with a faithful snapshot, or written
      back as it was read. */
  ghost predicate ScalarsTracked(c0: Config, c: Config, d: Dns, taken: bool) {
    && (d.settings.savedStock.Some? ==> taken && d.settings.savedStock.value == Snapshot(c0))
    && (d.settings.savedStock.None? ==>
          forall k :: k in SCALARS ==>
            Get(c, DNSMASQ, k) == if taken then One(UciGet(c0, DNSMASQ, k)) else Get(c0, DNSMASQ, k))
  }

  lemma SnapshotStable(c0: Config, c: Config, taken: bool)
    requires forall k :: k in SCALARS ==>
      Get(c, DNSMASQ, k) == if taken then One(UciGet(c0, DNSMASQ, k)) else Get(c0, DNSMASQ, k)
    ensures Snapshot(c) == Snapshot(c0)
  {
    forall k | k in SCALARS ensures UciGet(c, DNSMASQ, k) == UciGet(c0, DNSMASQ, k) {
      ReadsBack(Get(c0, DNSMASQ, k));
    }
  }

  /** Every DNS step keeps track of the stock scalars. */
  lemma TrackedStep(c0: Config, c: Config, d: Dns, aaaa: bool, taken: bool)
    requires Neutral(c) && ScalarsTracked(c0, c, d, taken)
    ensures ScalarsTracked(c0, ApplyDns(c, d, aaaa), Booked(c, d), taken || InCharge(d))
    ensures Booked(c, d).settings.savedStock.Some? <==> InCharge(d)
  {
    hide ApplyDns, MainPatch, UciGet, DesiredServers, DesiredAddrs, DesiredRebind, Relist;
    if InCharge(d) {
      if d.settings.savedStock.None? {
        SnapshotStable(c0, c, taken);
      }
    } else {
      MainPatchReads(c, d, aaaa);
      forall k | k in SCALARS
        ensures Get(ApplyDns(c, d, aaaa), DNSMASQ, k) == if taken then One(UciGet(c0, DNSMASQ, k)) else Get(c0, DNSMASQ, k)
      {
        MainAfter(c, d, aaaa, k);
      }
    }
  }

  // ---- lists ----

  lemma {:induction false} DropConcat(a: seq<string>, b: seq<string>, bad: seq<string>)
    ensures Drop(a + b, bad) == Drop(a, bad) + Drop(b, bad)
  {
    if b == [] {
      assert a + b == a;
    } else {
      assert (a + b)[..|a + b| - 1] == a + b[..|b| - 1];
      DropConcat(a, b[..|b| - 1], bad);
    }
  }

  lemma {:induction false} DropDrop(a: seq<string>, x: seq<string>, y: seq<string>)
    ensures Drop(Drop(a, x), y) == Drop(a, x + y)
  {
    if a != [] {
      var init, last := a[..|a| - 1], a[|a| - 1];
      DropDrop(init, x, y);
      DropConcat(Drop(init, x), if last in x then [] else [last], y);
      assert Drop([last], y) == Drop([], y) + (if last in y then [] else [last]);
    }
  }

  lemma {:induction false} DropAll(a: seq<string>, bad: seq<string>)
    requires forall v :: v in a ==> v in bad
    ensures Drop(a, bad) == []
  {
    if a != [] {
      DropAll(a[..|a| - 1], bad);
    }
  }

  /** A list is what was there at the start, less everything the tool has withdrawn,
      followed by exactly what the tool wrote last. */
  ghost predicate ListTracked(original: seq<string>, now: seq<string>, withdrawn: seq<string>, prev: seq<string>) {
    now == Drop(original, withdrawn) + prev
  }

  lemma RelistTracked(original: seq<string>, now: seq<string>, withdrawn: seq<string>, prev: seq<string>, next: seq<string>)
    requires ListTracked(original, now, withdrawn, prev)
    ensures ListTracked(original, Relist(now, prev, next), withdrawn + prev, next)
  {
    DropConcat(Drop(original, withdrawn), prev, prev);
    DropAll(prev, prev);
    DropDrop(original, withdrawn, prev);
  }

  /** Values the tool never wrote keep their multiplicity and order. */
  lemma ForeignValuesKept(original: seq<string>, now: seq<string>, withdrawn: seq<string>, prev: seq<string>, written: seq<string>)
    requires ListTracked(original, now, withdrawn, prev)
    requires forall v :: v in withdrawn || v in prev ==> v in written
    ensures Drop(now, written) == Drop(original, written)
  {
    DropConcat(Drop(original, withdrawn), prev, written);
    DropAll(prev, written);
    DropDrop(original, withdrawn, written);
    DropCovered(original, withdrawn, written);
  }

  lemma {:induction false} DropCovered(a: seq<string>, x: seq<string>, y: seq<string>)
    requires forall v :: v in x ==> v in y
    ensures Drop(a, x + y) == Drop(a, y)
  {
    if a != [] {
      DropCovered(a[..|a| - 1], x, y);
    }
  }

  /** Once nothing is wanted any more, nothing the tool wrote is left. */
  lemma NothingLeftBehind(original: seq<string>, now: seq<string>, withdrawn: seq<string>)
    requires ListTracked(original, now, withdrawn, [])
    ensures now == Drop(original, withdrawn)
    ensures forall v :: v in withdrawn ==> v !in now
  {
    DropMembers(original, withdrawn);
  }

  /** A list step on the stock section. */
  lemma ListsAfter(c: Config, d: Dns, aaaa: bool)
    requires Neutral(c)
    ensures Get(ApplyDns(c, d, aaaa), DNSMASQ, "server") == Relist(Get(c, DNSMASQ, "server"), d.settings.prevServers, DesiredServers(d))
    ensures Get(ApplyDns(c, d, aaaa), DNSMASQ, "address") == Relist(Get(c, DNSMASQ, "address"), d.settings.prevAddrs, DesiredAddrs(d.records))
    ensures Get(ApplyDns(c, d, aaaa), DNSMASQ, "rebind_domain")
      == Relist(Get(c, DNSMASQ, "rebind_domain"), d.settings.prevRebind, DesiredRebind(d.settings))
  {
    hide ApplyDns, MainPatch, Relist;
    MainPatchReads(c, d, aaaa);
    MainAfter(c, d, aaaa, "server");
    MainAfter(c, d, aaaa, "address");
    MainAfter(c, d, aaaa, "rebind_domain");
  }

  lemma Suffixed(a: seq<string>, b: seq<string>, s: seq<string>)
    ensures a + s == b + s ==> a == b
  {
    if a + s == b + s {
      assert |a| == |b|;
      assert a == (a + s)[..|a|] == (b + s)[..|b|] == b;
    }
  }

  /** Repeating a DNS step keeps the list exactly when no kept stock entry equals a
      value the tool writes; otherwise the stock copy disappears. */
  lemma RepeatedStep(original: seq<string>, withdrawn: seq<string>, wanted: seq<string>)
    ensures var now := Drop(original, withdrawn) + wanted;
      Relist(now, wanted, wanted) == now <==> forall v :: v in Drop(original, withdrawn) ==> v !in wanted
  {
    var kept := Drop(original, withdrawn);
    DropConcat(kept, wanted, wanted);
    DropAll(wanted, wanted);
    DropMembers(kept, wanted);
    hide Drop;
    assert Drop(kept, wanted) + [] == Drop(kept, wanted);
    Suffixed(Drop(kept, wanted), kept, wanted);
  }

  // ---- rebind_domain is different ----

  /** After a settings save that turns everything off, a value written before is gone
      from `rebind_domain` exactly when the request itself named it: the saved list
      is not carried over. */
  lemma RebindDependsOnTheRequest(c: Config, held: Dns, s: DnsSettings, aaaa: bool, v: string)
    requires Neutral(c) && !s.enabled && v in held.settings.prevRebind
    requires v in Get(c, DNSMASQ, "rebind_domain")
    ensures v !in Get(ApplyDns(c, StoreSettings(held, s), aaaa), DNSMASQ, "rebind_domain") <==> v in s.prevRebind
  {
    hide ApplyDns;
    var d := StoreSettings(held, s);
    ListsAfter(c, d, aaaa);
    DropMembers(Get(c, DNSMASQ, "rebind_domain"), s.prevRebind);
    assert DesiredRebind(d.settings) == [];
  }

  // ---- inputs that show the failures ----

  /** A stock entry that equals a written value: the second step takes its copy away, and
      withdrawing leaves nothing. */
  lemma StockCopyLost(v: string)
    ensures Relist([v], [], [v]) == [v, v]
    ensures Relist([v, v], [v], [v]) == [v]
    ensures Relist([v], [v], []) == []
  {
    assert [v, v][..1] == [v] && [v][..0] == [];
    assert Drop([v], []) == Drop([], []) + [v] && Drop([v], [v]) == Drop([], [v]);
    assert Drop([v, v], [v]) == Drop([v], [v]);
  }

  /** Settings in which everything is off. */
  const OFF := DnsSettings(false, "", "", false, false, 0, 0, 0, 0, false, false, false, false, [], None, [], [], [])

  function StockWith(o: Opt, vs: seq<string>): Config
    requires vs != []
  {
    map[DNSMASQ := Section("dnsmasq", map[o := vs])]
  }

  /** A rebind domain that the tool has written, and a request that does not name it. */
  lemma RebindLeftBehind(held: Dns, aaaa: bool, v: string)
    requires held.settings.prevRebind == [v]
    ensures v in Get(ApplyDns(StockWith("rebind_domain", [v]), StoreSettings(held, OFF), aaaa), DNSMASQ, "rebind_domain")
  {
    hide ApplyDns;
    assert MANAGED_BY != "rebind_domain" && "managed_v6" != "rebind_domain";
    RebindDependsOnTheRequest(StockWith("rebind_domain", [v]), held, OFF, aaaa, v);
  }
}
