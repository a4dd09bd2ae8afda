/** Which network card is in which bridge. Saving an interface binds cards to it by
    rewriting one bridge section and withdrawing the cards from all the others; what
    it looks up is the file as it was before its own batch. */
module Bridges {
  import opened Text
  import opened Uci

  const ROLE_LAN := "lan"

  /** What a save is given. `opts` stands for the addresses, protocol and other options
      of the interface's own section. */
  datatype NetIface = NetIface(id: string, role: string, device: string, ports: seq<string>, cloneMac: string, opts: Patch)

  // ---- looking things up ----

  /** A device section; no section has an empty name. */
  predicate IsDevice(c: Config, s: string) {
    s != "" && s in c && c[s].typ == "device"
  }

  predicate IsDeviceOf(c: Config, s: string, dev: string) {
    IsDevice(c, s) && First(Get(c, s, "name")) == dev
  }

  predicate IsBridge(c: Config, s: string) {
    IsDevice(c, s) && First(Get(c, s, "type")) == "bridge"
  }

  function Ports(c: Config, s: string): seq<string> {
    Get(c, s, "ports")
  }

  /** The first device section of that name in file order, or "". */
  function SectionOf(c: Config, order: seq<string>, dev: string): string {
    if order == [] then ""
    else if IsDeviceOf(c, order[0], dev) then order[0]
    else SectionOf(c, order[1..], dev)
  }

  predicate NamesBridge(c: Config, order: seq<string>, dev: string) {
    dev != "" && (HasPrefix(dev, "br-") || exists s :: s in order && IsDeviceOf(c, s, dev) && IsBridge(c, s))
  }

  /** The device that an interface uses now. */
  function DeviceOf(c: Config, id: string): string {
    if id in c && c[id].typ == "interface" then
      var d := First(Get(c, id, "device"));
      if d != "" then d else First(Get(c, id, "ifname"))
    else ""
  }

  function OwnedSection(c: Config, order: seq<string>, dev: string): string {
    if order == [] then ""
    else if IsDeviceOf(c, order[0], dev) && First(Get(c, order[0], MANAGED_BY)) == MARKER then order[0]
    else OwnedSection(c, order[1..], dev)
  }

  /** The tool's own device section behind an interface, or "". */
  function OldSection(c: Config, order: seq<string>, id: string): string {
    var dev := DeviceOf(c, id);
    if dev == "" then "" else OwnedSection(c, order, dev)
  }

  // ---- port lists ----

  method DedupePorts(ports: seq<string>) returns (out: seq<string>)
    ensures out == Distinct(ports)
  {
    hide TrimSpace;
    out := [];
    var seen: set<string> := {};
    for i := 0 to |ports|
      invariant out == Distinct(ports[..i]) && seen == set p | p in out
    {
      assert ports[..i + 1][..i] == ports[..i];
      var p := TrimSpace(ports[i]);
      if p != "" && p !in seen {
        seen := seen + {p};
        out := out + [p];
      }
    }
    assert ports[..|ports|] == ports;
  }

  /** The members of a bridge: the ports without the bridge's own name. */
  function Members(ports: seq<string>, dev: string): seq<string> {
    if ports == [] then []
    else
      var p := ports[|ports| - 1];
      Members(ports[..|ports| - 1], dev) + (if p != "" && p != dev then [p] else [])
  }

  function Shared(held: seq<string>, want: seq<string>): seq<string> {
    if held == [] then []
    else Shared(held[..|held| - 1], want) + (if held[|held| - 1] in want then [held[|held| - 1]] else [])
  }

  // ---- one save ----

  function BridgeSection(c: Config, order: seq<string>, dev: string): string {
    var sec := SectionOf(c, order, dev);
    if sec == "" then UciName("dev_" + dev) else sec
  }

  function BridgePatch(dev: string, ports: seq<string>): Patch {
    map["type" := ["bridge"], "name" := One(dev), "managed_by" := [MARKER], "ports" := Members(ports, dev)]
  }

  function BridgeWritten(c: Config, before: Config, order: seq<string>, dev: string, ports: seq<string>): Config {
    var sec := BridgeSection(before, order, dev);
    if SectionOf(before, order, dev) == "" then WriteSec(c, sec, "device", BridgePatch(dev, ports))
    else PatchSec(c, sec, BridgePatch(dev, ports))
  }

  /** The ports withdrawn from every other bridge. */
  function Detached(c: Config, before: Config, keep: string, ports: seq<string>): Config {
    map s | s in c ::
      if IsBridge(before, s) && s != keep then
        Section(c[s].typ, Overlay(c[s].opts, map["ports" := Drop(Ports(c, s), Shared(Ports(before, s), ports))]))
      else c[s]
  }

  /** The device that a save settles on, and the ports it binds. */
  function ChosenDevice(c: Config, order: seq<string>, nic: NetIface): string {
    var ports := Distinct(nic.ports);
    if nic.role == ROLE_LAN then
      if |ports| >= 2 then (if NamesBridge(c, order, nic.device) then nic.device else "br-" + UciName(nic.id))
      else if |ports| == 1 then ports[0]
      else if nic.device == "" then "br-" + UciName(nic.id)
      else nic.device
    else if nic.device == "" && nic.ports != [] then nic.ports[0]
    else nic.device
  }

  function BoundPorts(c: Config, order: seq<string>, nic: NetIface): seq<string> {
    if nic.role == ROLE_LAN then Distinct(nic.ports)
    else if ChosenDevice(c, order, nic) == "" then []
    else [ChosenDevice(c, order, nic)]
  }

  predicate MakesBridge(nic: NetIface) {
    nic.role == ROLE_LAN && |Distinct(nic.ports)| >= 2
  }

  /** The section that keeps the bound ports, "" when they are bound directly. */
  function KeptSection(c: Config, order: seq<string>, nic: NetIface): string {
    if MakesBridge(nic) then BridgeSection(c, order, ChosenDevice(c, order, nic)) else ""
  }

  /** The start of a save: the interface section and the bridge, before withdrawing. */
  function Written(c: Config, order: seq<string>, nic: NetIface): Config {
    var id, dev := UciName(nic.id), ChosenDevice(c, order, nic);
    var c1 := WriteSec(c, id, "interface", if dev == "" then map[] else map["device" := One(dev)]);
    if MakesBridge(nic) then BridgeWritten(c1, c, order, dev, Distinct(nic.ports)) else c1
  }

  function Bound(c: Config, order: seq<string>, nic: NetIface): Config {
    Detached(Written(c, order, nic), c, KeptSection(c, order, nic), BoundPorts(c, order, nic))
  }

  /** A cloned MAC lives in a device section; this one is made when the device has none. */
  function MacSection(id: string): string {
    UciName("dev_" + id)
  }

  predicate MakesMac(c: Config, order: seq<string>, dev: string, mac: string) {
    dev != "" && TrimSpace(mac) != "" && SectionOf(c, order, dev) == ""
  }

  function MacWritten(c: Config, before: Config, order: seq<string>, id: string, dev: string, mac: string): Config {
    var sec := SectionOf(before, order, dev);
    if MakesMac(before, order, dev, mac) then
      WriteSec(c, MacSection(id), "device", map["name" := One(dev), "managed_by" := [MARKER], "macaddr" := One(mac)])
    else if dev == "" || sec == "" then c
    else PatchSec(c, sec, map["macaddr" := if TrimSpace(mac) == "" then [] else One(mac)])
  }

  /** The old device section that the interface no longer uses. */
  function Replaced(c: Config, order: seq<string>, nic: NetIface): set<string> {
    var gone := OldSection(c, order, UciName(nic.id));
    if gone != "" && gone != SectionOf(c, order, ChosenDevice(c, order, nic)) then {gone} else {}
  }

  function SavedIface(c: Config, order: seq<string>, nic: NetIface): Config {
    var id := UciName(nic.id);
    var c1 := PatchSec(Bound(c, order, nic), id, nic.opts);
    MacWritten(c1, c, order, id, ChosenDevice(c, order, nic), nic.cloneMac) - Replaced(c, order, nic)
  }

  function DeletedIface(c: Config, order: seq<string>, id: string): Config {
    var gone := OldSection(c, order, UciName(id));
    c - {UciName(id)} - (if gone == "" then {} else {gone})
  }

  // ---- exclusivity ----

  /** A card is in a bridge. */
  predicate Holds(c: Config, s: string, p: string) {
    IsBridge(c, s) && p in Ports(c, s)
  }

  /** No card is in two bridges. */
  ghost predicate Exclusive(c: Config) {
    forall s, t, p :: Holds(c, s, p) && Holds(c, t, p) ==> s == t
  }

  /** The interface's own options are not those of a device. */
  predicate PlainOptions(nic: NetIface) {
    "ports" !in nic.opts && "type" !in nic.opts && "name" !in nic.opts
  }

  lemma {:induction false} DistinctMembers(ps: seq<string>)
    ensures forall p :: p in Distinct(ps) <==> p != "" && exists q :: q in ps && TrimSpace(q) == p
    ensures forall j, k :: 0 <= j < k < |Distinct(ps)| ==> Distinct(ps)[j] != Distinct(ps)[k]
  {
    hide TrimSpace;
    if ps != [] {
      var init, last := ps[..|ps| - 1], ps[|ps| - 1];
      assert ps == init + [last];
      DistinctMembers(init);
    }
  }

  lemma {:induction false} MembersAre(ports: seq<string>, dev: string)
    ensures forall p :: p in Members(ports, dev) <==> p in ports && p != "" && p != dev
  {
    if ports != [] {
      MembersAre(ports[..|ports| - 1], dev);
      assert ports == ports[..|ports| - 1] + [ports[|ports| - 1]];
    }
  }

  lemma {:induction false} SharedMembers(held: seq<string>, want: seq<string>)
    ensures forall p :: p in Shared(held, want) <==> p in held && p in want
  {
    if held != [] {
      SharedMembers(held[..|held| - 1], want);
      assert held == held[..|held| - 1] + [held[|held| - 1]];
    }
  }

  // ---- what the parts of a save leave alone ----

  /** The options that matter here stay in a section. */
  ghost predicate SameBridging(a: Config, b: Config, s: string) {
    Get(a, s, "ports") == Get(b, s, "ports") && Get(a, s, "type") == Get(b, s, "type")
  }

  lemma WriteBridging(c: Config, sec: string, typ: string, p: Patch, s: string)
    requires "ports" !in p && "type" !in p
    ensures SameBridging(WriteSec(c, sec, typ, p), c, s)
    ensures s != sec ==> (s in WriteSec(c, sec, typ, p) <==> s in c) && (s in c ==> WriteSec(c, sec, typ, p)[s].typ == c[s].typ)
    ensures sec in WriteSec(c, sec, typ, p) && WriteSec(c, sec, typ, p)[sec].typ == typ
  {
    hide Overlay;
    OverlayGet(OldOpts(c, sec), p, "ports");
    OverlayGet(OldOpts(c, sec), p, "type");
  }

  lemma PatchBridging(c: Config, sec: string, p: Patch, s: string)
    requires "ports" !in p && "type" !in p
    ensures SameBridging(PatchSec(c, sec, p), c, s)
    ensures (s in PatchSec(c, sec, p) <==> s in c) && (s in c ==> PatchSec(c, sec, p)[s].typ == c[s].typ)
  {
    hide Overlay;
    if sec in c {
      OverlayGet(c[sec].opts, p, "ports");
      OverlayGet(c[sec].opts, p, "type");
    }
  }

  lemma {:induction false} SectionOfIs(c: Config, order: seq<string>, dev: string)
    ensures SectionOf(c, order, dev) != "" ==> IsDeviceOf(c, SectionOf(c, order, dev), dev)
  {
    hide IsDeviceOf;
    if order != [] {
      SectionOfIs(c, order[1..], dev);
    }
  }

  /** The bridge's own section. */
  lemma BridgeOwn(c: Config, before: Config, order: seq<string>, dev: string, ports: seq<string>)
    requires SectionOf(before, order, dev) != "" ==> SectionOf(before, order, dev) in c
    ensures var after, sec := BridgeWritten(c, before, order, dev, ports), BridgeSection(before, order, dev);
      sec in after && Ports(after, sec) == Members(ports, dev) && Get(after, sec, "type") == ["bridge"] && Get(after, sec, "name") == One(dev)
    ensures var after, sec := BridgeWritten(c, before, order, dev, ports), BridgeSection(before, order, dev);
      IsDevice(after, sec) <==> SectionOf(before, order, dev) == "" || IsDevice(c, sec)
  {
    hide Overlay, Members, SectionOf, UciName, One;
    var sec, p := BridgeSection(before, order, dev), BridgePatch(dev, ports);
    UciNameIsName("dev_" + dev);
    BridgePatchReads(dev, ports);
    OverlayGet(OldOpts(c, sec), p, "ports");
    OverlayGet(OldOpts(c, sec), p, "type");
    OverlayGet(OldOpts(c, sec), p, "name");
  }

  lemma BridgeOther(c: Config, before: Config, order: seq<string>, dev: string, ports: seq<string>, s: string)
    requires s != BridgeSection(before, order, dev)
    ensures var after := BridgeWritten(c, before, order, dev, ports);
      (s in after <==> s in c) && (s in c ==> after[s] == c[s])
  {
    hide Overlay, Members, SectionOf, UciName, One;
  }

  lemma BridgePatchReads(dev: string, ports: seq<string>)
    ensures var p := BridgePatch(dev, ports);
      "ports" in p && p["ports"] == Members(ports, dev) && "type" in p && p["type"] == ["bridge"]
      && "name" in p && p["name"] == One(dev)
  {
    hide Members;
  }

  lemma DetachedAt(c: Config, before: Config, keep: string, ports: seq<string>, s: string)
    ensures Detached(c, before, keep, ports).Keys == c.Keys
    ensures s in c ==> Detached(c, before, keep, ports)[s].typ == c[s].typ
    ensures Get(Detached(c, before, keep, ports), s, "type") == Get(c, s, "type")
    ensures Get(Detached(c, before, keep, ports), s, "name") == Get(c, s, "name")
    ensures Get(Detached(c, before, keep, ports), s, "ports") ==
      if s in c && IsBridge(before, s) && s != keep then Drop(Ports(c, s), Shared(Ports(before, s), ports)) else Ports(c, s)
  {
    hide Overlay, Drop, Shared;
    if s in c && IsBridge(before, s) && s != keep {
      var p: Patch := map["ports" := Drop(Ports(c, s), Shared(Ports(before, s), ports))];
      OverlayGet(c[s].opts, p, "ports");
      OverlayGet(c[s].opts, p, "type");
      OverlayGet(c[s].opts, p, "name");
    }
  }

  lemma MacAt(c: Config, before: Config, order: seq<string>, id: string, dev: string, mac: string, s: string)
    ensures SameBridging(MacWritten(c, before, order, id, dev, mac), c, s)
    ensures s in MacWritten(c, before, order, id, dev, mac) <==> s in c || (MakesMac(before, order, dev, mac) && s == MacSection(id))
    ensures IsDevice(MacWritten(c, before, order, id, dev, mac), s) <==>
      IsDevice(c, s) || (MakesMac(before, order, dev, mac) && s == MacSection(id))
  {
    hide WriteSec, PatchSec, SectionOf, TrimSpace, UciName;
    var sec := SectionOf(before, order, dev);
    UciNameIsName("dev_" + id);
    PatchBridging(c, sec, map["macaddr" := if TrimSpace(mac) == "" then [] else One(mac)], s);
    WriteBridging(c, MacSection(id), "device", map["name" := One(dev), "managed_by" := [MARKER], "macaddr" := One(mac)], s);
  }

  lemma PatchAt(c: Config, sec: string, p: Patch, s: string, o: Opt)
    ensures Get(PatchSec(c, sec, p), s, o) == if s == sec && sec in c && o in p then p[o] else Get(c, s, o)
    ensures s in PatchSec(c, sec, p) <==> s in c
    ensures s in c ==> PatchSec(c, sec, p)[s].typ == c[s].typ
  {
    hide Overlay;
    if sec in c {
      OverlayGet(c[sec].opts, p, o);
    }
  }

  lemma WriteAt(c: Config, sec: string, typ: string, p: Patch, s: string, o: Opt)
    ensures Get(WriteSec(c, sec, typ, p), s, o) == if s == sec && o in p then p[o] else Get(c, s, o)
    ensures s in WriteSec(c, sec, typ, p) <==> s in c || s == sec
    ensures s in WriteSec(c, sec, typ, p) ==> WriteSec(c, sec, typ, p)[s].typ == if s == sec then typ else c[s].typ
  {
    hide Overlay;
    OverlayGet(OldOpts(c, sec), p, o);
  }

  /** A device keeps its name or is given the one it was looked up by. */
  lemma MacName(c: Config, before: Config, order: seq<string>, id: string, dev: string, mac: string, s: string)
    ensures var name := Get(MacWritten(c, before, order, id, dev, mac), s, "name");
      name == Get(c, s, "name") || name == One(dev)
  {
    hide WriteSec, PatchSec, SectionOf, MakesMac, MacSection, TrimSpace, One, Get;
    PatchAt(c, SectionOf(before, order, dev), map["macaddr" := if TrimSpace(mac) == "" then [] else One(mac)], s, "name");
    WriteAt(c, MacSection(id), "device", map["name" := One(dev), "managed_by" := [MARKER], "macaddr" := One(mac)], s, "name");
  }

  // ---- a whole save ----

  lemma WrittenAt(c: Config, order: seq<string>, nic: NetIface, s: string)
    requires !MakesBridge(nic) || s != KeptSection(c, order, nic)
    ensures SameBridging(Written(c, order, nic), c, s)
    ensures IsDevice(Written(c, order, nic), s) <==> IsDevice(c, s) && s != UciName(nic.id)
  {
    hide BridgeWritten, BridgeSection, ChosenDevice, UciName, WriteSec, Distinct;
    var id, dev := UciName(nic.id), ChosenDevice(c, order, nic);
    var p: Patch := if dev == "" then map[] else map["device" := One(dev)];
    WriteBridging(c, id, "interface", p, s);
    if MakesBridge(nic) {
      BridgeOther(WriteSec(c, id, "interface", p), c, order, dev, Distinct(nic.ports), s);
    }
  }

  /** The bridge is not one only if the save has just turned its section into that of
      the interface. */
  lemma WrittenKept(c: Config, order: seq<string>, nic: NetIface)
    requires MakesBridge(nic)
    ensures var kept, dev, w := KeptSection(c, order, nic), ChosenDevice(c, order, nic), Written(c, order, nic);
      kept in w && Ports(w, kept) == Members(Distinct(nic.ports), dev) && Get(w, kept, "type") == ["bridge"] && Get(w, kept, "name") == One(dev)
    ensures IsDevice(Written(c, order, nic), KeptSection(c, order, nic)) <==>
      SectionOf(c, order, ChosenDevice(c, order, nic)) != UciName(nic.id)
  {
    hide BridgeWritten, ChosenDevice, UciName, WriteSec, Distinct, SectionOf, Members, One;
    var id, dev := UciName(nic.id), ChosenDevice(c, order, nic);
    var p: Patch := if dev == "" then map[] else map["device" := One(dev)];
    var c1 := WriteSec(c, id, "interface", p);
    UciNameIsName(nic.id);
    SectionOfIs(c, order, dev);
    WriteBridging(c, id, "interface", p, SectionOf(c, order, dev));
    BridgeOwn(c1, c, order, dev, Distinct(nic.ports));
  }

  /** The configuration before the old section is removed. */
  function Projected(c: Config, order: seq<string>, nic: NetIface): Config {
    var id := UciName(nic.id);
    MacWritten(PatchSec(Bound(c, order, nic), id, nic.opts), c, order, id, ChosenDevice(c, order, nic), nic.cloneMac)
  }

  lemma SavedIsProjected(c: Config, order: seq<string>, nic: NetIface)
    ensures SavedIface(c, order, nic) == Projected(c, order, nic) - Replaced(c, order, nic)
  {
    hide Bound, MacWritten, PatchSec, UciName, ChosenDevice, Replaced;
  }

  /** The save gives the interface's device a section of its own for the MAC. */
  predicate MacMade(c: Config, order: seq<string>, nic: NetIface) {
    MakesMac(c, order, ChosenDevice(c, order, nic), nic.cloneMac)
  }

  lemma ProjectedIsBound(c: Config, order: seq<string>, nic: NetIface, s: string)
    requires PlainOptions(nic)
    ensures SameBridging(Projected(c, order, nic), Bound(c, order, nic), s)
    ensures s in Bound(c, order, nic) ==> s in Projected(c, order, nic)
    ensures IsDevice(Projected(c, order, nic), s) <==>
      IsDevice(Bound(c, order, nic), s) || (MacMade(c, order, nic) && s == MacSection(UciName(nic.id)))
  {
    hide Bound, MacWritten, MakesMac, MacSection, PatchSec, UciName, ChosenDevice;
    var id, b := UciName(nic.id), Bound(c, order, nic);
    PatchBridging(b, id, nic.opts, s);
    MacAt(PatchSec(b, id, nic.opts), c, order, id, ChosenDevice(c, order, nic), nic.cloneMac, s);
  }

  lemma KeptNamed(c: Config, order: seq<string>, nic: NetIface)
    ensures MakesBridge(nic) <==> KeptSection(c, order, nic) != ""
  {
    hide UciName, SectionOf, ChosenDevice, Distinct;
    UciNameIsName("dev_" + ChosenDevice(c, order, nic));
  }

  /** After a save every section but the kept one has lost the bound ports if it was a
      bridge and has the ports it had otherwise, and the device sections are the same
      but for those named like the interface or made for the MAC. */
  lemma OtherSection(c: Config, order: seq<string>, nic: NetIface, s: string)
    requires PlainOptions(nic) && s != KeptSection(c, order, nic)
    ensures Get(Projected(c, order, nic), s, "type") == Get(c, s, "type")
    ensures !IsBridge(c, s) ==> Ports(Projected(c, order, nic), s) == Ports(c, s)
    ensures IsBridge(c, s) ==>
      forall p :: p in Ports(Projected(c, order, nic), s) <==> p in Ports(c, s) && p !in BoundPorts(c, order, nic)
    ensures IsDevice(Projected(c, order, nic), s) <==>
      (IsDevice(c, s) && s != UciName(nic.id)) || (MacMade(c, order, nic) && s == MacSection(UciName(nic.id)))
  {
    hide Projected, Written, Detached, UciName, BoundPorts, Drop, Shared, KeptSection, MacMade, MacSection;
    var w, kept, bound := Written(c, order, nic), KeptSection(c, order, nic), BoundPorts(c, order, nic);
    ProjectedIsBound(c, order, nic, s);
    WrittenAt(c, order, nic, s);
    DetachedAt(w, c, kept, bound, s);
    DropMembers(Ports(w, s), Shared(Ports(c, s), bound));
    SharedMembers(Ports(c, s), bound);
  }

  lemma KeptAfter(c: Config, order: seq<string>, nic: NetIface)
    requires PlainOptions(nic) && MakesBridge(nic)
    ensures var after, kept, dev := Projected(c, order, nic), KeptSection(c, order, nic), ChosenDevice(c, order, nic);
      kept in after && Ports(after, kept) == Members(Distinct(nic.ports), dev) && Get(after, kept, "type") == ["bridge"]
    ensures IsDevice(Projected(c, order, nic), KeptSection(c, order, nic)) <==>
      SectionOf(c, order, ChosenDevice(c, order, nic)) != UciName(nic.id)
  {
    hide Projected, Written, Detached, UciName, BoundPorts, KeptSection, ChosenDevice, Members, Distinct, SectionOf;
    var w, kept := Written(c, order, nic), KeptSection(c, order, nic);
    UciNameIsName(nic.id);
    ProjectedIsBound(c, order, nic, kept);
    WrittenKept(c, order, nic);
    DetachedAt(w, c, kept, BoundPorts(c, order, nic), kept);
  }

  lemma KeptName(c: Config, order: seq<string>, nic: NetIface)
    requires PlainOptions(nic) && MakesBridge(nic)
    ensures First(Get(Projected(c, order, nic), KeptSection(c, order, nic), "name")) == ChosenDevice(c, order, nic)
  {
    hide Written, MacWritten, Detached, UciName, BoundPorts, KeptSection, Distinct, Overlay, One, First;
    var id, kept, dev, b := UciName(nic.id), KeptSection(c, order, nic), ChosenDevice(c, order, nic), Bound(c, order, nic);
    WrittenKept(c, order, nic);
    DetachedAt(Written(c, order, nic), c, kept, BoundPorts(c, order, nic), kept);
    OverlayGet(OldOpts(b, id), nic.opts, "name");
    MacName(PatchSec(b, id, nic.opts), c, order, id, dev, nic.cloneMac, kept);
    FirstOne(dev);
  }

  lemma FirstOne(v: string)
    ensures First(One(v)) == v
  {
  }

  // ---- where every card is after a save ----

  /** The save turns a section that only looks like a bridge into a device. */
  predicate Revives(c: Config, order: seq<string>, nic: NetIface) {
    var s := MacSection(UciName(nic.id));
    MacMade(c, order, nic) && s != KeptSection(c, order, nic) && !IsDevice(c, s) && First(Get(c, s, "type")) == "bridge"
  }

  /** The place of a card after a save, read off the file before it: the chosen bridge
      has its members, a revived section what it listed, and any other bridge what it
      had but the bound ports. */
  predicate Placed(c: Config, order: seq<string>, nic: NetIface, s: string, p: string) {
    s !in Replaced(c, order, nic) &&
    if MakesBridge(nic) && s == KeptSection(c, order, nic) then
      SectionOf(c, order, ChosenDevice(c, order, nic)) != UciName(nic.id)
      && p in Members(Distinct(nic.ports), ChosenDevice(c, order, nic))
    else if Revives(c, order, nic) && s == MacSection(UciName(nic.id)) then
      p in Ports(c, s)
    else
      s != UciName(nic.id) && Holds(c, s, p) && p !in BoundPorts(c, order, nic)
  }

  lemma MacSectionIs(id: string)
    ensures MacSection(UciName(id)) == "dev_" + UciName(id) && MacSection(UciName(id)) != UciName(id)
  {
    hide UciName;
    UciNameIsName(id);
    UciNameIsName("dev_" + UciName(id));
    assert forall ch :: ch in "dev_" ==> IsWordChar(ch);
    assert |"dev_" + UciName(id)| == |UciName(id)| + 4;
  }

  lemma PlacedBefore(c: Config, order: seq<string>, nic: NetIface, s: string, p: string)
    requires PlainOptions(nic)
    ensures s !in Replaced(c, order, nic) ==> (Holds(Projected(c, order, nic), s, p) <==> Placed(c, order, nic, s, p))
  {
    hide Projected, KeptSection, UciName, BoundPorts, MakesBridge, Members, Distinct, ChosenDevice, MacMade, MacSection, Replaced, SectionOf;
    KeptNamed(c, order, nic);
    MacSectionIs(nic.id);
    if s == KeptSection(c, order, nic) {
      if MakesBridge(nic) {
        KeptAfter(c, order, nic);
      }
    } else {
      OtherSection(c, order, nic, s);
    }
  }

  /** Where the cards are after any save of any file. */
  lemma PlaceAfter(c: Config, order: seq<string>, nic: NetIface, s: string, p: string)
    requires PlainOptions(nic)
    ensures Holds(SavedIface(c, order, nic), s, p) <==> Placed(c, order, nic, s, p)
  {
    hide Projected, KeptSection, UciName, BoundPorts, MakesBridge, Members, Distinct, ChosenDevice, Revives, MacSection, Replaced, SectionOf, SavedIface;
    SavedIsProjected(c, order, nic);
    PlacedBefore(c, order, nic, s, p);
  }

  lemma {:induction false} OldIsDevice(c: Config, order: seq<string>, dev: string)
    ensures OwnedSection(c, order, dev) != "" ==> IsDeviceOf(c, OwnedSection(c, order, dev), dev)
  {
    hide IsDeviceOf;
    if order != [] {
      OldIsDevice(c, order[1..], dev);
    }
  }

  lemma ReplacedAreDevices(c: Config, order: seq<string>, nic: NetIface, s: string)
    requires s in Replaced(c, order, nic)
    ensures IsDevice(c, s)
  {
    hide UciName, SectionOf, ChosenDevice, OwnedSection;
    OldIsDevice(c, order, DeviceOf(c, UciName(nic.id)));
  }

  // ---- the promises ----

  /** The revived section lists a card that another bridge holds afterwards. */
  ghost predicate Clashes(c: Config, order: seq<string>, nic: NetIface) {
    Revives(c, order, nic)
    && exists t, p ::
      t != MacSection(UciName(nic.id)) && p in Ports(c, MacSection(UciName(nic.id))) && Placed(c, order, nic, t, p)
  }

  lemma MemberIsBound(c: Config, order: seq<string>, nic: NetIface, p: string)
    requires MakesBridge(nic) && p in Members(Distinct(nic.ports), ChosenDevice(c, order, nic))
    ensures p in BoundPorts(c, order, nic)
  {
    hide Distinct, ChosenDevice, Members;
    MembersAre(Distinct(nic.ports), ChosenDevice(c, order, nic));
  }

  lemma OnlyRevivedClash(c: Config, order: seq<string>, nic: NetIface, s: string, t: string, p: string)
    requires Exclusive(c) && s != t && Placed(c, order, nic, s, p) && Placed(c, order, nic, t, p)
    ensures Revives(c, order, nic) && (s == MacSection(UciName(nic.id)) || t == MacSection(UciName(nic.id)))
    ensures Clashes(c, order, nic)
  {
    hide KeptSection, UciName, BoundPorts, MakesBridge, Members, Distinct, ChosenDevice, Revives, MacSection, Replaced, SectionOf, Holds;
    if MakesBridge(nic) && p in Members(Distinct(nic.ports), ChosenDevice(c, order, nic)) {
      MemberIsBound(c, order, nic, p);
    }
    RevivedIsNotKept(c, order, nic);
  }

  lemma RevivedIsNotKept(c: Config, order: seq<string>, nic: NetIface)
    requires Revives(c, order, nic)
    ensures MacSection(UciName(nic.id)) != KeptSection(c, order, nic) && !IsDevice(c, MacSection(UciName(nic.id)))
  {
    hide KeptSection, MacSection, UciName, IsDevice;
  }

  /** A save keeps every card in at most one bridge, unless it turns a section that only
      looks like a bridge into one, and that section lists a card of another bridge. */
  lemma SaveKeepsExclusive(c: Config, order: seq<string>, nic: NetIface)
    requires Exclusive(c) && PlainOptions(nic)
    ensures Exclusive(SavedIface(c, order, nic)) <==> !Clashes(c, order, nic)
  {
    hide KeptSection, UciName, SavedIface, Placed, Holds, Revives, MacSection;
    var after, m := SavedIface(c, order, nic), MacSection(UciName(nic.id));
    forall s, t, p | Holds(after, s, p) && Holds(after, t, p) && !Clashes(c, order, nic) ensures s == t {
      PlaceAfter(c, order, nic, s, p);
      PlaceAfter(c, order, nic, t, p);
      if s != t {
        OnlyRevivedClash(c, order, nic, s, t, p);
      }
    }
    if Clashes(c, order, nic) {
      var t, p :| t != m && p in Ports(c, m) && Placed(c, order, nic, t, p);
      RevivedHolds(c, order, nic, p);
      PlaceAfter(c, order, nic, m, p);
      PlaceAfter(c, order, nic, t, p);
      assert Holds(after, m, p) && Holds(after, t, p);
    }
  }

  lemma RevivedHolds(c: Config, order: seq<string>, nic: NetIface, p: string)
    requires Revives(c, order, nic) && p in Ports(c, MacSection(UciName(nic.id)))
    ensures Placed(c, order, nic, MacSection(UciName(nic.id)), p)
  {
    hide KeptSection, UciName, BoundPorts, MakesBridge, Members, Distinct, ChosenDevice, Revives, MacSection, Replaced, SectionOf, IsDevice;
    var s := MacSection(UciName(nic.id));
    RevivedIsNotKept(c, order, nic);
    if s in Replaced(c, order, nic) {
      ReplacedAreDevices(c, order, nic, s);
    }
  }

  /** The ports bound to a LAN are in the chosen bridge, except the bridge's own name,
      and in no other section but a revived one. */
  lemma LanPortsOnlyInChosenBridge(c: Config, order: seq<string>, nic: NetIface, s: string, p: string)
    requires PlainOptions(nic) && nic.role == ROLE_LAN && p in Distinct(nic.ports)
    ensures Holds(SavedIface(c, order, nic), s, p) <==>
      (Revives(c, order, nic) && s == MacSection(UciName(nic.id)) && p in Ports(c, s))
      || (MakesBridge(nic) && s == KeptSection(c, order, nic) && p != ChosenDevice(c, order, nic)
          && s !in Replaced(c, order, nic) && SectionOf(c, order, ChosenDevice(c, order, nic)) != UciName(nic.id))
  {
    hide KeptSection, UciName, Distinct, SavedIface, Replaced, MakesBridge, SectionOf, ChosenDevice, Members, Revives, MacSection, IsDevice;
    PlaceAfter(c, order, nic, s, p);
    MembersAre(Distinct(nic.ports), ChosenDevice(c, order, nic));
    DistinctMembers(nic.ports);
    if Revives(c, order, nic) && s == MacSection(UciName(nic.id)) && p in Ports(c, s) {
      RevivedHolds(c, order, nic, p);
    }
    if Revives(c, order, nic) {
      RevivedIsNotKept(c, order, nic);
    }
  }

  /** A WAN device is in no bridge but a revived one. */
  lemma WanDeviceInNoBridge(c: Config, order: seq<string>, nic: NetIface, s: string)
    requires PlainOptions(nic) && nic.role != ROLE_LAN && ChosenDevice(c, order, nic) != ""
    ensures Holds(SavedIface(c, order, nic), s, ChosenDevice(c, order, nic)) <==>
      Revives(c, order, nic) && s == MacSection(UciName(nic.id)) && ChosenDevice(c, order, nic) in Ports(c, s)
  {
    hide KeptSection, UciName, SavedIface, Replaced, SectionOf, ChosenDevice, Members, Revives, MacSection, Holds, Distinct;
    PlaceAfter(c, order, nic, s, ChosenDevice(c, order, nic));
    if Revives(c, order, nic) && s == MacSection(UciName(nic.id)) && ChosenDevice(c, order, nic) in Ports(c, s) {
      RevivedHolds(c, order, nic, ChosenDevice(c, order, nic));
    }
  }

  /** The chosen bridge is there after the save, with the bound ports but its own name,
      unless its new section has the name of the section that the interface gives up. */
  lemma ChosenBridgeHoldsPorts(c: Config, order: seq<string>, nic: NetIface)
    requires PlainOptions(nic) && MakesBridge(nic)
    ensures var after, kept, dev := SavedIface(c, order, nic), KeptSection(c, order, nic), ChosenDevice(c, order, nic);
      kept in after <==> !(SectionOf(c, order, dev) == "" && OldSection(c, order, UciName(nic.id)) == UciName("dev_" + dev))
    ensures var after, kept, dev := SavedIface(c, order, nic), KeptSection(c, order, nic), ChosenDevice(c, order, nic);
      kept in after ==>
        Ports(after, kept) == Members(Distinct(nic.ports), dev)
        && (forall p :: p in Ports(after, kept) <==> p in Distinct(nic.ports) && p != dev)
        && First(Get(after, kept, "name")) == dev && First(Get(after, kept, "type")) == "bridge"
        && (IsBridge(after, kept) <==> SectionOf(c, order, dev) != UciName(nic.id))
  {
    hide Projected, UciName, Distinct, SavedIface, Replaced, ChosenDevice, Members, SectionOf, OldSection, KeptSection;
    var kept := KeptSection(c, order, nic);
    SavedIsProjected(c, order, nic);
    KeptNamed(c, order, nic);
    KeptAfter(c, order, nic);
    KeptName(c, order, nic);
    KeptIsReplaced(c, order, nic);
    MembersAre(Distinct(nic.ports), ChosenDevice(c, order, nic));
    DistinctMembers(nic.ports);
  }

  lemma KeptIsReplaced(c: Config, order: seq<string>, nic: NetIface)
    requires MakesBridge(nic)
    ensures KeptSection(c, order, nic) in Replaced(c, order, nic) <==>
      SectionOf(c, order, ChosenDevice(c, order, nic)) == ""
      && OldSection(c, order, UciName(nic.id)) == UciName("dev_" + ChosenDevice(c, order, nic))
  {
    hide UciName, Distinct, ChosenDevice, SectionOf, OldSection;
    UciNameIsName("dev_" + ChosenDevice(c, order, nic));
  }

  // ---- the interface's own section ----

  lemma BridgeWrittenAt(c: Config, before: Config, order: seq<string>, dev: string, ports: seq<string>, s: string, o: Opt)
    requires o != "type" && o != "name" && o != "managed_by" && o != "ports"
    ensures var after := BridgeWritten(c, before, order, dev, ports);
      Get(after, s, o) == Get(c, s, o) && (s in c ==> s in after)
  {
    hide SectionOf, BridgeSection, WriteSec, PatchSec, Members;
    WriteAt(c, BridgeSection(before, order, dev), "device", BridgePatch(dev, ports), s, o);
    PatchAt(c, BridgeSection(before, order, dev), BridgePatch(dev, ports), s, o);
  }

  lemma DetachedOther(c: Config, before: Config, keep: string, ports: seq<string>, s: string, o: Opt)
    requires o != "ports"
    ensures Get(Detached(c, before, keep, ports), s, o) == Get(c, s, o)
  {
    hide Overlay, Drop, Shared;
    if s in c && IsBridge(before, s) && s != keep {
      OverlayGet(c[s].opts, map["ports" := Drop(Ports(c, s), Shared(Ports(before, s), ports))], o);
    }
  }

  lemma BoundDevice(c: Config, order: seq<string>, nic: NetIface)
    ensures var id, dev := UciName(nic.id), ChosenDevice(c, order, nic);
      id in Bound(c, order, nic) &&
      Get(Bound(c, order, nic), id, "device") == if dev == "" then Get(c, id, "device") else [dev]
  {
    hide ChosenDevice, UciName, WriteSec, BridgeWritten, Detached, Distinct, KeptSection, BoundPorts;
    var id, dev := UciName(nic.id), ChosenDevice(c, order, nic);
    var p: Patch := if dev == "" then map[] else map["device" := One(dev)];
    var c1 := WriteSec(c, id, "interface", p);
    WriteAt(c, id, "interface", p, id, "device");
    BridgeWrittenAt(c1, c, order, dev, Distinct(nic.ports), id, "device");
    DetachedOther(Written(c, order, nic), c, KeptSection(c, order, nic), BoundPorts(c, order, nic), id, "device");
    DetachedAt(Written(c, order, nic), c, KeptSection(c, order, nic), BoundPorts(c, order, nic), id);
  }

  lemma MacOther(c: Config, before: Config, order: seq<string>, id: string, dev: string, mac: string, s: string)
    ensures Get(MacWritten(c, before, order, id, dev, mac), s, "device") == Get(c, s, "device")
  {
    hide WriteSec, PatchSec, SectionOf, MakesMac, MacSection, TrimSpace, One, Get;
    PatchAt(c, SectionOf(before, order, dev), map["macaddr" := if TrimSpace(mac) == "" then [] else One(mac)], s, "device");
    WriteAt(c, MacSection(id), "device", map["name" := One(dev), "managed_by" := [MARKER], "macaddr" := One(mac)], s, "device");
  }

  lemma InterfaceStays(c: Config, order: seq<string>, nic: NetIface)
    ensures UciName(nic.id) !in Replaced(c, order, nic)
  {
    hide UciName, ChosenDevice, SectionOf, OwnedSection, First;
    if UciName(nic.id) in Replaced(c, order, nic) {
      ReplacedAreDevices(c, order, nic, UciName(nic.id));
      assert DeviceOf(c, UciName(nic.id)) == "" by { NoInterface(c, UciName(nic.id)); }
    }
  }

  lemma NoInterface(c: Config, s: string)
    requires IsDevice(c, s)
    ensures DeviceOf(c, s) == ""
  {
    assert "device" != "interface";
  }

  lemma DeviceSaved(c: Config, order: seq<string>, nic: NetIface)
    requires "device" !in nic.opts
    ensures var id, dev := UciName(nic.id), ChosenDevice(c, order, nic);
      id in SavedIface(c, order, nic) &&
      Get(SavedIface(c, order, nic), id, "device") == if dev == "" then Get(c, id, "device") else [dev]
  {
    hide Bound, MacWritten, PatchSec, UciName, ChosenDevice, Replaced, SavedIface;
    var id, b := UciName(nic.id), Bound(c, order, nic);
    BoundDevice(c, order, nic);
    PatchAt(b, id, nic.opts, id, "device");
    MacOther(PatchSec(b, id, nic.opts), c, order, id, ChosenDevice(c, order, nic), nic.cloneMac, id);
    MacAt(PatchSec(b, id, nic.opts), c, order, id, ChosenDevice(c, order, nic), nic.cloneMac, id);
    SavedIsProjected(c, order, nic);
    InterfaceStays(c, order, nic);
  }

  /** The file has a bridge of that name in the section. */
  predicate BridgeCalled(c: Config, s: string, dev: string) {
    s != "" && s in c && c[s].typ == "device" && First(Get(c, s, "name")) == dev && First(Get(c, s, "type")) == "bridge"
  }

  lemma CalledIs(c: Config, order: seq<string>, dev: string)
    ensures NamesBridge(c, order, dev) <==>
      HasPrefix(dev, "br-") || (dev != "" && exists s :: s in order && BridgeCalled(c, s, dev))
  {
  }

  /** The section that an interface's device is found in: the first device section of that
      name in the file; and it is the one to be given up if it is the tool's own. */
  predicate FirstCalled(c: Config, order: seq<string>, dev: string, own: bool, i: int) {
    && 0 <= i < |order| && Called(c, order[i], dev, own)
    && forall j :: 0 <= j < i ==> !Called(c, order[j], dev, own)
  }

  predicate Called(c: Config, s: string, dev: string, own: bool) {
    s != "" && s in c && c[s].typ == "device" && First(Get(c, s, "name")) == dev
    && (own ==> First(Get(c, s, "managed_by")) == "kwrt-net-manager")
  }

  lemma CalledLater(c: Config, order: seq<string>, dev: string, own: bool, i: int)
    requires FirstCalled(c, order, dev, own, i) && i > 0
    ensures FirstCalled(c, order[1..], dev, own, i - 1) && order[1..][i - 1] == order[i] && !Called(c, order[0], dev, own)
  {
    hide Called;
  }

  lemma {:induction false} SectionFound(c: Config, order: seq<string>, dev: string, i: int)
    ensures FirstCalled(c, order, dev, false, i) ==> SectionOf(c, order, dev) == order[i]
    ensures FirstCalled(c, order, dev, true, i) ==> OwnedSection(c, order, dev) == order[i]
  {
    hide Called, IsDeviceOf, FirstCalled;
    if order != [] {
      CalledEither(c, order[0], dev);
      if FirstCalled(c, order, dev, false, i) || FirstCalled(c, order, dev, true, i) {
        CalledHead(c, order, dev, i);
        SectionFound(c, order[1..], dev, i - 1);
        if i > 0 {
          if FirstCalled(c, order, dev, false, i) {
            CalledLater(c, order, dev, false, i);
          }
          if FirstCalled(c, order, dev, true, i) {
            CalledLater(c, order, dev, true, i);
          }
        }
      }
    } else {
      CalledHead(c, order, dev, i);
    }
  }

  lemma CalledEither(c: Config, s: string, dev: string)
    ensures Called(c, s, dev, false) <==> IsDeviceOf(c, s, dev)
    ensures Called(c, s, dev, true) <==> IsDeviceOf(c, s, dev) && First(Get(c, s, MANAGED_BY)) == MARKER
  {
  }

  lemma CalledHead(c: Config, order: seq<string>, dev: string, i: int)
    ensures forall own :: FirstCalled(c, order, dev, own, i) ==> 0 <= i < |order| && (i == 0 ==> Called(c, order[0], dev, own))
  {
    hide Called;
  }

  lemma {:induction false} SectionMissing(c: Config, order: seq<string>, dev: string)
    ensures SectionOf(c, order, dev) == "" || exists i :: FirstCalled(c, order, dev, false, i)
    ensures OwnedSection(c, order, dev) == "" || exists i :: FirstCalled(c, order, dev, true, i)
  {
    hide Called, IsDeviceOf, FirstCalled;
    if order != [] {
      CalledEither(c, order[0], dev);
      SectionMissing(c, order[1..], dev);
      FirstOrLater(c, order, dev, false);
      FirstOrLater(c, order, dev, true);
    }
  }

  lemma FirstOrLater(c: Config, order: seq<string>, dev: string, own: bool)
    requires order != []
    ensures Called(c, order[0], dev, own) ==> FirstCalled(c, order, dev, own, 0)
    ensures !Called(c, order[0], dev, own) ==> forall i :: FirstCalled(c, order[1..], dev, own, i) ==> FirstCalled(c, order, dev, own, i + 1)
  {
    hide Called;
    if !Called(c, order[0], dev, own) {
      forall i | FirstCalled(c, order[1..], dev, own, i) ensures FirstCalled(c, order, dev, own, i + 1) {
        forall j | 0 <= j < i + 1 ensures !Called(c, order[j], dev, own) {
          assert j > 0 ==> order[j] == order[1..][j - 1];
        }
      }
    }
  }

  /** The section of the tool's own that an interface gives up: the first device section
      of the tool with the name of the interface's device. */
  ghost predicate GivesUp(c: Config, order: seq<string>, id: string, s: string) {
    && id in c && c[id].typ == "interface"
    && var dev := if First(Get(c, id, "device")) != "" then First(Get(c, id, "device")) else First(Get(c, id, "ifname"));
      dev != "" && exists i :: FirstCalled(c, order, dev, true, i) && order[i] == s
  }

  lemma GivenUpIs(c: Config, order: seq<string>, id: string, s: string)
    ensures GivesUp(c, order, id, s) <==> s != "" && OldSection(c, order, id) == s
  {
    hide First, Get, OwnedSection, FirstCalled;
    var dev := if First(Get(c, id, "device")) != "" then First(Get(c, id, "device")) else First(Get(c, id, "ifname"));
    SectionMissing(c, order, dev);
    CalledAreNamed(c, order, dev);
    if i :| FirstCalled(c, order, dev, true, i) && order[i] == s {
      SectionFound(c, order, dev, i);
    }
    if id in c && c[id].typ == "interface" && dev != "" && OwnedSection(c, order, dev) != "" {
      var i :| FirstCalled(c, order, dev, true, i);
      SectionFound(c, order, dev, i);
    }
  }

  lemma CalledAreNamed(c: Config, order: seq<string>, dev: string)
    ensures forall i :: FirstCalled(c, order, dev, true, i) ==> 0 <= i < |order| && order[i] != ""
  {
  }

  /** Deleting an interface removes its section and the one it gives up, and nothing else. */
  lemma DeletedExactly(c: Config, order: seq<string>, id: string, s: string)
    requires s != ""
    ensures s in DeletedIface(c, order, id) <==> s in c && s != UciName(id) && !GivesUp(c, order, UciName(id), s)
    ensures s in DeletedIface(c, order, id) ==> DeletedIface(c, order, id)[s] == c[s]
  {
    hide OldSection, GivesUp, UciName;
    GivenUpIs(c, order, UciName(id), s);
  }

  /** The device of an interface after a save. For a LAN on several ports it is the bridge
      whose section has them, which is the given one or one named after the interface; on
      one port it is that port; on none it is the given one or again one named after the
      interface. For a WAN it is the given one or the first port; without either it stays. */
  lemma InterfaceDevice(c: Config, order: seq<string>, nic: NetIface)
    requires PlainOptions(nic) && "device" !in nic.opts
    ensures UciName(nic.id) in SavedIface(c, order, nic)
    ensures var device := Get(SavedIface(c, order, nic), UciName(nic.id), "device");
      nic.role == ROLE_LAN && |Distinct(nic.ports)| >= 2 ==>
        (device == [nic.device] || device == ["br-" + UciName(nic.id)])
        && (device == [nic.device] <==>
            HasPrefix(nic.device, "br-") || (nic.device != "" && exists s :: s in order && BridgeCalled(c, s, nic.device)))
        && (KeptSection(c, order, nic) in SavedIface(c, order, nic) ==>
            device == Get(SavedIface(c, order, nic), KeptSection(c, order, nic), "name"))
    ensures nic.role == ROLE_LAN && |Distinct(nic.ports)| == 1 ==>
      Get(SavedIface(c, order, nic), UciName(nic.id), "device") == Distinct(nic.ports)
    ensures nic.role == ROLE_LAN && Distinct(nic.ports) == [] ==>
      Get(SavedIface(c, order, nic), UciName(nic.id), "device") == [if nic.device == "" then "br-" + UciName(nic.id) else nic.device]
    ensures nic.role != ROLE_LAN && nic.device != "" ==> Get(SavedIface(c, order, nic), UciName(nic.id), "device") == [nic.device]
    ensures nic.role != ROLE_LAN && nic.device == "" && nic.ports != [] && nic.ports[0] != "" ==>
      Get(SavedIface(c, order, nic), UciName(nic.id), "device") == [nic.ports[0]]
    ensures nic.role != ROLE_LAN && nic.device == "" && (nic.ports == [] || nic.ports[0] == "") ==>
      Get(SavedIface(c, order, nic), UciName(nic.id), "device") == Get(c, UciName(nic.id), "device")
  {
    hide SavedIface, UciName, Distinct, KeptSection, NamesBridge, Get;
    DeviceSaved(c, order, nic);
    DistinctMembers(nic.ports);
    CalledIs(c, order, nic.device);
    if nic.role == ROLE_LAN && |Distinct(nic.ports)| >= 2 {
      BridgeNamed(c, order, nic);
      KeptNameSaved(c, order, nic);
    }
    if nic.role == ROLE_LAN && |Distinct(nic.ports)| == 1 {
      assert Distinct(nic.ports)[0] in Distinct(nic.ports);
    }
  }

  lemma BridgeNamed(c: Config, order: seq<string>, nic: NetIface)
    requires MakesBridge(nic)
    ensures ChosenDevice(c, order, nic) != ""
  {
    hide UciName, Distinct;
  }

  lemma KeptNameSaved(c: Config, order: seq<string>, nic: NetIface)
    requires PlainOptions(nic) && MakesBridge(nic)
    ensures KeptSection(c, order, nic) in SavedIface(c, order, nic) ==>
      Get(SavedIface(c, order, nic), KeptSection(c, order, nic), "name") == One(ChosenDevice(c, order, nic))
  {
    hide Written, MacWritten, Detached, UciName, BoundPorts, KeptSection, Distinct, Overlay, One, ChosenDevice, SavedIface, Replaced, PatchSec, MakesBridge;
    var id, kept, dev, b := UciName(nic.id), KeptSection(c, order, nic), ChosenDevice(c, order, nic), Bound(c, order, nic);
    SavedIsProjected(c, order, nic);
    WrittenKept(c, order, nic);
    DetachedAt(Written(c, order, nic), c, kept, BoundPorts(c, order, nic), kept);
    PatchAt(b, id, nic.opts, kept, "name");
    MacName(PatchSec(b, id, nic.opts), c, order, id, dev, nic.cloneMac, kept);
  }

  /** The section that a cloned MAC is written to: the device's own, or the one made. */
  function MacHolder(c: Config, order: seq<string>, nic: NetIface): string {
    var sec := SectionOf(c, order, ChosenDevice(c, order, nic));
    if sec == "" then MacSection(UciName(nic.id)) else sec
  }

  lemma MacHeld(c: Config, before: Config, order: seq<string>, id: string, dev: string, mac: string)
    requires dev != "" && (SectionOf(before, order, dev) != "" ==> SectionOf(before, order, dev) in c)
    ensures var sec, after := SectionOf(before, order, dev), MacWritten(c, before, order, id, dev, mac);
      (TrimSpace(mac) != "" && sec == "" ==>
        MacSection(id) in after && Get(after, MacSection(id), "macaddr") == [mac] && Get(after, MacSection(id), "name") == [dev])
      && (TrimSpace(mac) != "" && sec != "" ==> sec in after && Get(after, sec, "macaddr") == [mac])
      && (TrimSpace(mac) == "" && sec != "" ==> sec in after && Get(after, sec, "macaddr") == [])
  {
    hide WriteSec, PatchSec, SectionOf, MacSection, Get;
    var sec := SectionOf(before, order, dev);
    var p: Patch := map["macaddr" := if TrimSpace(mac) == "" then [] else One(mac)];
    var q: Patch := map["name" := One(dev), "managed_by" := [MARKER], "macaddr" := One(mac)];
    BlankTrims();
    PatchAt(c, sec, p, sec, "macaddr");
    WriteAt(c, MacSection(id), "device", q, MacSection(id), "macaddr");
    WriteAt(c, MacSection(id), "device", q, MacSection(id), "name");
  }

  lemma BlankTrims()
    ensures TrimSpace("") == ""
  {
  }

  lemma BoundHas(c: Config, order: seq<string>, nic: NetIface, s: string)
    requires s in c
    ensures s in PatchSec(Bound(c, order, nic), UciName(nic.id), nic.opts)
  {
    hide ChosenDevice, UciName, WriteSec, BridgeWritten, Distinct, KeptSection, BoundPorts, PatchSec;
    var id, dev := UciName(nic.id), ChosenDevice(c, order, nic);
    var p: Patch := if dev == "" then map[] else map["device" := One(dev)];
    WriteAt(c, id, "interface", p, s, "");
    BridgeWrittenAt(WriteSec(c, id, "interface", p), c, order, dev, Distinct(nic.ports), s, "");
    PatchAt(Bound(c, order, nic), id, nic.opts, s, "");
  }

  /** The device's section has exactly the cloned MAC afterwards, and one that was taken
      back is gone; a section made for it is there unless it has the name of the section
      that the interface gives up. */
  lemma CloneMacSaved(c: Config, order: seq<string>, nic: NetIface)
    requires ChosenDevice(c, order, nic) != ""
    ensures var after, s := SavedIface(c, order, nic), MacHolder(c, order, nic);
      TrimSpace(nic.cloneMac) != "" && s in after ==> Get(after, s, "macaddr") == [nic.cloneMac]
    ensures var dev := ChosenDevice(c, order, nic);
      TrimSpace(nic.cloneMac) != "" ==> (MacHolder(c, order, nic) in SavedIface(c, order, nic) <==>
        !(SectionOf(c, order, dev) == "" && OldSection(c, order, UciName(nic.id)) == MacSection(UciName(nic.id))))
    ensures var dev := ChosenDevice(c, order, nic);
      TrimSpace(nic.cloneMac) == "" && SectionOf(c, order, dev) != "" ==>
        SectionOf(c, order, dev) in SavedIface(c, order, nic) && Get(SavedIface(c, order, nic), SectionOf(c, order, dev), "macaddr") == []
  {
    hide Bound, MacWritten, PatchSec, UciName, ChosenDevice, SavedIface, SectionOf, OldSection, TrimSpace;
    var id, dev := UciName(nic.id), ChosenDevice(c, order, nic);
    SectionOfIs(c, order, dev);
    UciNameIsName("dev_" + id);
    if SectionOf(c, order, dev) != "" {
      BoundHas(c, order, nic, SectionOf(c, order, dev));
    }
    MacHeld(PatchSec(Bound(c, order, nic), id, nic.opts), c, order, id, dev, nic.cloneMac);
    SavedIsProjected(c, order, nic);
  }

  // ---- runs ----

  /** `order` is the file order in which the save finds the sections. */
  datatype Op = Save(nic: NetIface, order: seq<string>) | Delete(id: string, order: seq<string>)

  function Do(c: Config, op: Op): Config {
    match op
    case Save(nic, order) => SavedIface(c, order, nic)
    case Delete(id, order) => DeletedIface(c, order, id)
  }

  function RunOps(c: Config, ops: seq<Op>): Config {
    if ops == [] then c else Do(RunOps(c, ops[..|ops| - 1]), ops[|ops| - 1])
  }

  ghost predicate AllPlain(ops: seq<Op>) {
    forall op :: op in ops && op.Save? ==> PlainOptions(op.nic)
  }

  ghost predicate OpClashes(c: Config, op: Op) {
    op.Save? && Clashes(c, op.order, op.nic)
  }

  /** Some save of the run puts a card into a second bridge. */
  ghost predicate SomeClash(c: Config, ops: seq<Op>) {
    ops != [] && (SomeClash(c, ops[..|ops| - 1]) || OpClashes(RunOps(c, ops[..|ops| - 1]), ops[|ops| - 1]))
  }

  /** No card is in two bridges at any time of the run. */
  ghost predicate AlwaysExclusive(c: Config, ops: seq<Op>) {
    Exclusive(RunOps(c, ops)) && (ops == [] || AlwaysExclusive(c, ops[..|ops| - 1]))
  }

  /** Removing sections cannot put a card into a bridge. */
  lemma RemovalKeeps(c: Config, gone: set<string>)
    requires Exclusive(c)
    ensures Exclusive(c - gone)
  {
    var r := c - gone;
    forall s, t, p | Holds(r, s, p) && Holds(r, t, p) ensures s == t {
      assert Holds(c, s, p) && Holds(c, t, p);
    }
  }

  lemma OpKeepsExclusive(c: Config, op: Op)
    requires Exclusive(c) && (op.Save? ==> PlainOptions(op.nic))
    ensures Exclusive(Do(c, op)) <==> !OpClashes(c, op)
  {
    hide Exclusive, SavedIface, OldSection, UciName, Clashes, PlainOptions;
    match op
    case Save(nic, order) =>
      SaveKeepsExclusive(c, order, nic);
    case Delete(id, order) =>
      var gone := OldSection(c, order, UciName(id));
      RemovalKeeps(c, {UciName(id)});
      RemovalKeeps(c - {UciName(id)}, if gone == "" then {} else {gone});
  }

  /** Port exclusivity over runs: if every card is in at most one bridge beforehand, that
      stays so through a run of interface saves and deletions exactly if none of the saves
      revives a section with a card of another bridge. */
  lemma {:induction false} ExclusiveOverRuns(c: Config, ops: seq<Op>)
    requires Exclusive(c) && AllPlain(ops)
    ensures AlwaysExclusive(c, ops) <==> !SomeClash(c, ops)
  {
    hide Exclusive, Do, OpClashes, PlainOptions;
    if ops != [] {
      var init := ops[..|ops| - 1];
      ExclusiveOverRuns(c, init);
      if AlwaysExclusive(c, init) {
        OpKeepsExclusive(RunOps(c, init), ops[|ops| - 1]);
      }
    }
  }

  // ---- files in which no save can go wrong ----

  /** Only device sections list ports. */
  ghost predicate NoStrayPorts(c: Config) {
    forall s :: s != "" && s in c && Ports(c, s) != [] ==> IsDevice(c, s)
  }

  lemma NothingToRevive(c: Config, order: seq<string>, nic: NetIface)
    requires NoStrayPorts(c)
    ensures !Clashes(c, order, nic)
  {
    hide MacMade, MacSection, KeptSection, Placed, UciName, IsDevice;
    MacSectionIs(nic.id);
  }

  /** The names that saves make up. */
  predicate MadeUp(s: string) {
    HasPrefix(s, "dev_")
  }

  lemma MadeUpName(x: string)
    ensures MadeUp(UciName("dev_" + x))
  {
    var id := "dev_" + x;
    assert forall k :: 0 <= k < 4 ==> id[k] == "dev_"[k] && IsWordChar(id[k]);
    assert Sanitize(id)[..4] == "dev_";
  }

  lemma KeptIsKnown(c: Config, order: seq<string>, nic: NetIface)
    requires MakesBridge(nic)
    ensures IsDevice(c, KeptSection(c, order, nic)) || MadeUp(KeptSection(c, order, nic))
    ensures SectionOf(c, order, ChosenDevice(c, order, nic)) == "" || IsDevice(c, SectionOf(c, order, ChosenDevice(c, order, nic)))
  {
    hide UciName, Distinct, ChosenDevice, SectionOf, MadeUp;
    SectionOfIs(c, order, ChosenDevice(c, order, nic));
    MadeUpName(ChosenDevice(c, order, nic));
  }

  /** A save of an interface that is not named like a device section makes no other
      section list ports, and no device sections but those with a made-up name. */
  lemma SectionAfter(c: Config, order: seq<string>, nic: NetIface, s: string)
    requires PlainOptions(nic) && NoStrayPorts(c) && !IsDevice(c, UciName(nic.id)) && s != ""
    ensures Ports(Projected(c, order, nic), s) != [] ==> IsDevice(Projected(c, order, nic), s)
    ensures IsDevice(Projected(c, order, nic), s) ==> IsDevice(c, s) || MadeUp(s)
  {
    hide Projected, KeptSection, UciName, BoundPorts, MakesBridge, Members, Distinct, ChosenDevice, SectionOf, IsDevice, MacMade, MadeUp;
    UciNameIsName(nic.id);
    KeptNamed(c, order, nic);
    MadeUpName(UciName(nic.id));
    if s == KeptSection(c, order, nic) {
      KeptAfter(c, order, nic);
      KeptIsKnown(c, order, nic);
    } else {
      OtherSection(c, order, nic, s);
      if Ports(Projected(c, order, nic), s) != [] {
        assert Ports(Projected(c, order, nic), s)[0] in Ports(c, s);
      }
    }
  }

  ghost predicate DevicesFrom(c0: Config, c: Config) {
    forall s :: IsDevice(c, s) ==> IsDevice(c0, s) || MadeUp(s)
  }

  lemma RemovalKeepsClean(c0: Config, c: Config, gone: set<string>)
    requires NoStrayPorts(c) && DevicesFrom(c0, c)
    ensures NoStrayPorts(c - gone) && DevicesFrom(c0, c - gone)
  {
    var r := c - gone;
    forall s | s != "" && s in r && Ports(r, s) != [] ensures IsDevice(r, s) {
      assert Ports(c, s) == Ports(r, s);
    }
    forall s | IsDevice(r, s) ensures IsDevice(c0, s) || MadeUp(s) {
      assert IsDevice(c, s);
    }
  }

  lemma SaveKeepsClean(c0: Config, c: Config, order: seq<string>, nic: NetIface)
    requires NoStrayPorts(c) && DevicesFrom(c0, c) && PlainOptions(nic) && !IsDevice(c, UciName(nic.id))
    ensures NoStrayPorts(SavedIface(c, order, nic)) && DevicesFrom(c0, SavedIface(c, order, nic))
  {
    hide Projected, UciName, SavedIface, Replaced, IsDevice, MadeUp, Ports;
    var after := Projected(c, order, nic);
    forall s | s != "" && s in after && Ports(after, s) != [] ensures IsDevice(after, s) {
      SectionAfter(c, order, nic, s);
    }
    forall s | IsDevice(after, s) ensures IsDevice(c0, s) || MadeUp(s) {
      DevicesAreNamed(after, s);
      SectionAfter(c, order, nic, s);
    }
    SavedIsProjected(c, order, nic);
    RemovalKeepsClean(c0, after, Replaced(c, order, nic));
  }

  lemma DevicesAreNamed(c: Config, s: string)
    requires IsDevice(c, s)
    ensures s != ""
  {
  }

  /** No interface saved is named like a device section of the file or like a made-up one. */
  ghost predicate IdsApart(c: Config, ops: seq<Op>) {
    forall op :: op in ops && op.Save? ==> !IsDevice(c, UciName(op.nic.id)) && !MadeUp(UciName(op.nic.id))
  }

  lemma {:induction false} CleanOverRuns(c: Config, ops: seq<Op>)
    requires NoStrayPorts(c) && AllPlain(ops) && IdsApart(c, ops)
    ensures NoStrayPorts(RunOps(c, ops)) && DevicesFrom(c, RunOps(c, ops)) && !SomeClash(c, ops)
  {
    hide NoStrayPorts, DevicesFrom, IsDevice, MadeUp, UciName, Clashes, SavedIface, OldSection, PlainOptions;
    if ops == [] {
      OwnDevices(c);
    } else {
      var init, op := ops[..|ops| - 1], ops[|ops| - 1];
      var before := RunOps(c, init);
      CleanOverRuns(c, init);
      assert op in ops;
      match op
      case Save(nic, order) =>
        NotADevice(c, before, UciName(nic.id));
        SaveKeepsClean(c, before, order, nic);
        NothingToRevive(before, order, nic);
      case Delete(id, order) =>
        var gone := OldSection(before, order, UciName(id));
        RemovalKeepsClean(c, before, {UciName(id)});
        RemovalKeepsClean(c, before - {UciName(id)}, if gone == "" then {} else {gone});
    }
  }

  lemma OwnDevices(c: Config)
    ensures DevicesFrom(c, c)
  {
  }

  lemma NotADevice(c0: Config, c: Config, s: string)
    requires DevicesFrom(c0, c) && !IsDevice(c0, s) && !MadeUp(s)
    ensures !IsDevice(c, s)
  {
  }

  /** In a file in which only device sections list ports, every card stays in at most one
      bridge whatever is saved and deleted, as long as interfaces and devices have
      different names. */
  lemma CleanFileStaysExclusive(c: Config, ops: seq<Op>)
    requires Exclusive(c) && NoStrayPorts(c) && AllPlain(ops) && IdsApart(c, ops)
    ensures AlwaysExclusive(c, ops)
  {
    hide Exclusive, NoStrayPorts, AllPlain, IdsApart, SomeClash, AlwaysExclusive;
    CleanOverRuns(c, ops);
    ExclusiveOverRuns(c, ops);
  }

  // ---- inputs that show the failures ----

  lemma Sanitized(id: string, s: string)
    requires |s| == |id| && s != "" && !IsDigit(s[0])
    requires forall k :: 0 <= k < |s| ==> s[k] == if IsWordChar(id[k]) then id[k] else '_'
    ensures UciName(id) == s
  {
    assert Sanitize(id) == s;
  }

  lemma TwoPorts()
    ensures Distinct(["eth0", "eth1"]) == ["eth0", "eth1"] && Distinct(["eth1"]) == ["eth1"]
  {
  }

  function OnCardWithMac(): Config {
    map["br_x" := Section("interface", map["device" := ["eth0"]]),
        "dev_br_x" := Section("device", map["name" := ["eth0"], "managed_by" := [MARKER]])]
  }

  function OntoTwoCards(): NetIface {
    NetIface("br_x", ROLE_LAN, "br-x", ["eth0", "eth1"], "", map[])
  }

  lemma ItsBridge(order: seq<string>)
    ensures MakesBridge(OntoTwoCards()) && ChosenDevice(OnCardWithMac(), order, OntoTwoCards()) == "br-x"
  {
    hide Distinct, IsDeviceOf, IsBridge;
    TwoPorts();
    assert HasPrefix("br-x", "br-");
  }

  lemma ItsDevice()
    ensures DeviceOf(OnCardWithMac(), "br_x") == "eth0"
    ensures !IsDevice(OnCardWithMac(), "br_x") && IsDeviceOf(OnCardWithMac(), "dev_br_x", "eth0")
    ensures First(Get(OnCardWithMac(), "dev_br_x", MANAGED_BY)) == MARKER
  {
  }

  lemma OldOfCard()
    ensures OldSection(OnCardWithMac(), ["br_x", "dev_br_x"], "br_x") == "dev_br_x"
  {
    hide OnCardWithMac, DeviceOf, Get, First, IsDevice;
    ItsDevice();
    assert ["br_x", "dev_br_x"][1..] == ["dev_br_x"];
    assert "eth0" != "";
  }

  lemma NoSuchDevice()
    ensures SectionOf(OnCardWithMac(), ["br_x", "dev_br_x"], "br-x") == ""
  {
    assert ["br_x", "dev_br_x"][1..] == ["dev_br_x"];
    assert ["dev_br_x"][1..] == [];
    assert "eth0" != "br-x";
  }

  /** A bridge section that is made and deleted by one and the same save: the interface
      was on one card with a cloned MAC, whose section has the name of the new one. */
  lemma NewBridgeDeleted()
    ensures KeptSection(OnCardWithMac(), ["br_x", "dev_br_x"], OntoTwoCards()) == "dev_br_x"
    ensures "dev_br_x" !in SavedIface(OnCardWithMac(), ["br_x", "dev_br_x"], OntoTwoCards())
  {
    hide UciName, SavedIface, MakesBridge, OnCardWithMac, ChosenDevice, SectionOf, OldSection;
    ItsBridge(["br_x", "dev_br_x"]);
    Sanitized("br_x", "br_x");
    Sanitized("dev_" + "br-x", "dev_br_x");
    OldOfCard();
    NoSuchDevice();
    ChosenBridgeHoldsPorts(OnCardWithMac(), ["br_x", "dev_br_x"], OntoTwoCards());
  }

  function WithOldBridge(): Config {
    map["dev_x" := Section("switch", map["type" := ["bridge"], "ports" := ["eth9"]]),
        "br" := Section("device", map["type" := ["bridge"], "name" := ["br-a"], "ports" := ["eth9"]])]
  }

  function OntoOneCard(role: string): NetIface {
    NetIface("x", role, "eth1", ["eth1"], "m", map[])
  }

  lemma ItsCard(role: string)
    ensures var nic := OntoOneCard(role);
      !MakesBridge(nic) && ChosenDevice(WithOldBridge(), ["dev_x", "br"], nic) == "eth1"
      && BoundPorts(WithOldBridge(), ["dev_x", "br"], nic) == ["eth1"]
  {
    hide Distinct;
    TwoPorts();
  }

  lemma ItHasNoSection()
    ensures SectionOf(WithOldBridge(), ["dev_x", "br"], "eth1") == "" && OldSection(WithOldBridge(), ["dev_x", "br"], "x") == ""
  {
    assert ["dev_x", "br"][1..] == ["br"];
    assert ["br"][1..] == [];
    assert "br-a" != "eth1";
  }

  lemma ItsSection()
    ensures UciName("x") == "x" && MacSection("x") == "dev_x"
  {
    hide UciName;
    Sanitized("x", "x");
    Sanitized("dev_" + "x", "dev_x");
  }

  lemma ItRevives(role: string)
    ensures Revives(WithOldBridge(), ["dev_x", "br"], OntoOneCard(role))
    ensures Ports(WithOldBridge(), "dev_x") == ["eth9"]
  {
    hide UciName, MacSection, Distinct, MakesBridge, ChosenDevice, SectionOf, TrimSpace;
    ItsCard(role);
    ItHasNoSection();
    ItsSection();
    OneLetter();
  }

  lemma ItStays(role: string)
    ensures Placed(WithOldBridge(), ["dev_x", "br"], OntoOneCard(role), "br", "eth9")
  {
    hide UciName, MacSection, Distinct, MakesBridge, ChosenDevice, SectionOf, OldSection, BoundPorts;
    ItsCard(role);
    ItHasNoSection();
    ItsSection();
  }

  lemma ItClashes(role: string)
    ensures Clashes(WithOldBridge(), ["dev_x", "br"], OntoOneCard(role))
  {
    hide UciName, MacSection, Revives, Placed, Ports, WithOldBridge;
    ItRevives(role);
    ItStays(role);
    ItsSection();
    assert "eth9" in Ports(WithOldBridge(), "dev_x");
  }

  /** A card that comes to be in two bridges, whatever the role of the interface saved. */
  lemma StrayPortsComeBack(role: string)
    ensures Exclusive(WithOldBridge())
    ensures !Exclusive(SavedIface(WithOldBridge(), ["dev_x", "br"], OntoOneCard(role)))
  {
    hide SavedIface, MakesBridge, ChosenDevice, SectionOf, BoundPorts, Revives, Placed, MacSection, UciName;
    ItClashes(role);
    SaveKeepsExclusive(WithOldBridge(), ["dev_x", "br"], OntoOneCard(role));
  }

  lemma OneLetter()
    ensures TrimSpace("m") == "m"
  {
  }
}
