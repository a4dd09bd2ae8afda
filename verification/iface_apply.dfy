/** `SaveNetIface` as it runs: everything is looked up in the network file as it is,
    then one batch is filled and run. */
module IfaceApply {
  import opened Text
  import opened Uci
  import opened Bridges

  // ---- looking things up ----

  method DeviceSectionByName(c: Config, order: seq<string>, dev: string) returns (sec: string)
    ensures sec == SectionOf(c, order, dev)
  {
    hide IsDeviceOf;
    assert order[0..] == order;
    for i := 0 to |order|
      invariant SectionOf(c, order, dev) == SectionOf(c, order[i..], dev)
    {
      assert order[i..][1..] == order[i + 1..];
      if IsDeviceOf(c, order[i], dev) {
        return order[i];
      }
    }
    sec := "";
  }

  method ManagedDeviceSectionOf(c: Config, order: seq<string>, id: string) returns (sec: string)
    ensures sec == OldSection(c, order, id)
  {
    hide IsDeviceOf, DeviceOf, Get;
    var dev := DeviceOf(c, id);
    if dev == "" {
      return "";
    }
    assert order[0..] == order;
    for i := 0 to |order|
      invariant OwnedSection(c, order, dev) == OwnedSection(c, order[i..], dev)
    {
      assert order[i..][1..] == order[i + 1..];
      if IsDeviceOf(c, order[i], dev) && First(Get(c, order[i], MANAGED_BY)) == MARKER {
        return order[i];
      }
    }
    sec := "";
  }

  method IsBridgeDevice(c: Config, order: seq<string>, dev: string) returns (yes: bool)
    ensures yes == NamesBridge(c, order, dev)
  {
    hide HasPrefix, IsDeviceOf, IsBridge;
    if dev == "" {
      return false;
    }
    if HasPrefix(dev, "br-") {
      return true;
    }
    for i := 0 to |order|
      invariant forall s :: s in order[..i] ==> !(IsDeviceOf(c, s, dev) && IsBridge(c, s))
    {
      assert order[..i + 1] == order[..i] + [order[i]];
      if IsDeviceOf(c, order[i], dev) && IsBridge(c, order[i]) {
        return true;
      }
    }
    assert order[..|order|] == order;
    yes := false;
  }

  // ---- withdrawing ports ----

  method EmitDetach(d: Batch, s: string, held: seq<string>, ports: seq<string>)
    requires d.Valid()
    modifies d
    ensures d.Valid()
    ensures d.result == PatchSec(old(d.result), s, map["ports" := Drop(Get(old(d.result), s, "ports"), Shared(held, ports))])
  {
    hide Begun, RunBatch, Drop, Without, Get;
    ghost var h := d.result;
    d.Resume(s);
    d.Touch("ports");
    ghost var was := Get(h, s, "ports");
    DropNothing(was);
    for i := 0 to |held|
      invariant d.Writing(h, s, None) && d.patch == map["ports" := Drop(was, Shared(held[..i], ports))]
    {
      assert held[..i + 1][..i] == held[..i];
      if held[i] in ports {
        DropOneMore(was, Shared(held[..i], ports), held[i]);
        d.Remove(s, "ports", held[i]);
      } else {
        assert Shared(held[..i], ports) + [] == Shared(held[..i], ports);
      }
    }
    assert held[..|held|] == held;
    BegunIsPatch(h, s, d.patch);
  }

  /** Withdrawal that has only come to the sections in `done`. */
  ghost function DetachedSoFar(c: Config, before: Config, keep: string, ports: seq<string>, done: set<string>): Config {
    map s | s in c ::
      if s in done && IsBridge(before, s) && s != keep then
        Section(c[s].typ, Overlay(c[s].opts, map["ports" := Drop(Ports(c, s), Shared(Ports(before, s), ports))]))
      else c[s]
  }

  lemma DetachedNone(c: Config, before: Config, keep: string, ports: seq<string>)
    ensures DetachedSoFar(c, before, keep, ports, {}) == c
  {
  }

  lemma DetachedAll(c: Config, before: Config, keep: string, ports: seq<string>, done: set<string>)
    requires before.Keys <= done
    ensures DetachedSoFar(c, before, keep, ports, done) == Detached(c, before, keep, ports)
  {
    hide Overlay, Drop, Shared;
  }

  lemma DetachedMore(c: Config, before: Config, keep: string, ports: seq<string>, done: set<string>, s: string)
    requires s !in done
    ensures var so := DetachedSoFar(c, before, keep, ports, done);
      DetachedSoFar(c, before, keep, ports, done + {s}) ==
      if IsBridge(before, s) && s != keep then
        PatchSec(so, s, map["ports" := Drop(Get(so, s, "ports"), Shared(Ports(before, s), ports))])
      else so
  {
    hide Overlay, Drop, Shared;
    var so := DetachedSoFar(c, before, keep, ports, done);
    assert Get(so, s, "ports") == Ports(c, s);
  }

  /** The listing names every section once. */
  ghost predicate Lists(order: seq<string>, c: Config) {
    (forall s :: s in c ==> s in order) && forall i, j :: 0 <= i < j < |order| ==> order[i] != order[j]
  }

  method DetachPorts(d: Batch, before: Config, order: seq<string>, keep: string, ports: seq<string>)
    requires d.Valid() && Lists(order, before)
    modifies d
    ensures d.Valid() && d.result == Detached(old(d.result), before, keep, ports)
  {
    hide Begun, RunBatch, PatchSec, Detached, DetachedSoFar, IsBridge, Shared, Drop, Get;
    ghost var c := d.result;
    ghost var done: set<string> := {};
    DetachedNone(c, before, keep, ports);
    for i := 0 to |order|
      invariant d.Valid() && d.result == DetachedSoFar(c, before, keep, ports, done)
      invariant done == set s | s in order[..i]
    {
      var s := order[i];
      assert order[..i + 1] == order[..i] + [s];
      assert s !in order[..i];
      DetachedMore(c, before, keep, ports, done, s);
      if IsBridge(before, s) && s != keep {
        EmitDetach(d, s, Ports(before, s), ports);
      }
      done := done + {s};
    }
    assert order[..|order|] == order;
    DetachedAll(c, before, keep, ports, done);
  }

  /** Without ports there is nothing to withdraw. */
  lemma NothingDetached(c: Config, before: Config, keep: string)
    ensures Detached(c, before, keep, []) == c
  {
    forall s | s in c && IsBridge(before, s) && s != keep
      ensures Overlay(c[s].opts, map["ports" := Drop(Ports(c, s), Shared(Ports(before, s), []))]) == c[s].opts
    {
      NothingShared(Ports(before, s));
      DropNothing(Ports(c, s));
      SamePorts(c[s].opts);
    }
  }

  lemma SamePorts(opts: Opts)
    ensures Overlay(opts, map["ports" := OptGet(opts, "ports")]) == opts
  {
    var p: Patch := map["ports" := OptGet(opts, "ports")];
    forall o ensures OptGet(Overlay(opts, p), o) == OptGet(opts, o) {
      OverlayGet(opts, p, o);
    }
    OptsExtensional(Overlay(opts, p), opts);
  }

  lemma {:induction false} NothingShared(held: seq<string>)
    ensures Shared(held, []) == []
  {
    if held != [] {
      NothingShared(held[..|held| - 1]);
    }
  }

  // ---- the bridge ----

  method EmitMembers(d: Batch, sec: string, dev: string, ports: seq<string>)
    requires d.Valid() && d.sec == sec && "ports" in d.patch && d.patch["ports"] == []
    modifies d
    ensures d.Writing(old(d.head), sec, old(d.typ)) && d.patch == old(d.patch)["ports" := Members(ports, dev)]
  {
    hide Begun, RunBatch;
    ghost var p, h, t := d.patch, d.head, d.typ;
    assert p == p["ports" := []];
    for i := 0 to |ports|
      invariant d.Writing(h, sec, t) && d.patch == p["ports" := Members(ports[..i], dev)]
    {
      assert ports[..i + 1][..i] == ports[..i];
      if ports[i] != "" && ports[i] != dev {
        d.Append(sec, "ports", ports[i]);
      } else {
        assert Members(ports[..i], dev) + [] == Members(ports[..i], dev);
      }
    }
    assert ports[..|ports|] == ports;
  }

  method EmitBridgeOptions(d: Batch, sec: string, dev: string, ports: seq<string>)
    requires d.Valid() && d.sec == sec && d.patch == map[]
    modifies d
    ensures d.Writing(old(d.head), sec, old(d.typ)) && d.patch == BridgePatch(dev, ports)
  {
    hide Begun, RunBatch, Members;
    d.SetKV(sec, "type", "bridge");
    d.SetKV(sec, "name", dev);
    d.SetKV(sec, MANAGED_BY, MARKER);
    ghost var p := d.patch;
    d.DelK(sec, "ports");
    EmitMembers(d, sec, dev, ports);
    assert d.patch == p["ports" := Members(ports, dev)];
  }

  method WriteBridge(d: Batch, before: Config, order: seq<string>, dev: string, ports: seq<string>)
    requires d.Valid() && Lists(order, before)
    modifies d
    ensures d.Valid()
    ensures d.result == Detached(BridgeWritten(old(d.result), before, order, dev, ports), before, BridgeSection(before, order, dev), ports)
  {
    hide Begun, RunBatch, Detached, SectionOf, UciName, BridgePatch, WriteSec, PatchSec, Lists;
    ghost var h := d.result;
    var sec := DeviceSectionByName(before, order, dev);
    if sec == "" {
      sec := BuildUciName("dev_" + dev);
      d.Open(sec, "device");
      EmitBridgeOptions(d, sec, dev, ports);
      BegunIsSection(h, sec, "device", BridgePatch(dev, ports));
    } else {
      d.Resume(sec);
      EmitBridgeOptions(d, sec, dev, ports);
      BegunIsPatch(h, sec, BridgePatch(dev, ports));
    }
    DetachPorts(d, before, order, sec, ports);
  }

  // ---- the interface ----

  method EmitInterface(d: Batch, id: string, dev: string)
    requires d.Valid()
    modifies d
    ensures d.Valid() && d.result == WriteSec(old(d.result), id, "interface", if dev == "" then map[] else map["device" := One(dev)])
  {
    hide Begun, RunBatch, WriteSec;
    ghost var h := d.result;
    d.Open(id, "interface");
    if dev != "" {
      d.SetKV(id, "device", dev);
    }
    BegunIsSection(h, id, "interface", d.patch);
  }

  method ChooseDevice(c: Config, order: seq<string>, nic: NetIface) returns (dev: string)
    ensures dev == ChosenDevice(c, order, nic)
  {
    hide NamesBridge, UciName, Distinct;
    var id := BuildUciName(nic.id);
    if nic.role == ROLE_LAN {
      var ports := DedupePorts(nic.ports);
      dev := nic.device;
      if |ports| >= 2 {
        var bridge := IsBridgeDevice(c, order, dev);
        if !bridge {
          dev := "br-" + id;
        }
      } else if |ports| == 1 {
        dev := ports[0];
      } else if dev == "" {
        dev := "br-" + id;
      }
    } else {
      dev := nic.device;
      if dev == "" && |nic.ports| > 0 {
        dev := nic.ports[0];
      }
    }
  }

  method EmitBound(d: Batch, c: Config, order: seq<string>, nic: NetIface, dev: string)
    requires d.Valid() && d.result == c && Lists(order, c) && dev == ChosenDevice(c, order, nic)
    modifies d
    ensures d.Valid() && d.result == Bound(c, order, nic)
  {
    hide Begun, RunBatch, Detached, BridgeWritten, BridgeSection, WriteSec, Lists, UciName, ChosenDevice, Distinct;
    var id := BuildUciName(nic.id);
    EmitInterface(d, id, dev);
    if nic.role == ROLE_LAN {
      var ports := DedupePorts(nic.ports);
      if |ports| >= 2 {
        WriteBridge(d, c, order, dev, ports);
      } else if |ports| == 1 {
        DetachPorts(d, c, order, "", ports);
      } else {
        NothingDetached(d.result, c, "");
      }
    } else if dev != "" {
      DetachPorts(d, c, order, "", [dev]);
    } else {
      NothingDetached(d.result, c, "");
    }
  }

  /** The interface's other options, each replaced as a whole. */
  method EmitOptions(d: Batch, id: string, opts: Patch)
    requires d.Valid()
    modifies d
    ensures d.Valid() && d.result == PatchSec(old(d.result), id, opts)
  {
    hide Begun, RunBatch, PatchSec;
    ghost var h := d.result;
    d.Resume(id);
    var rest := opts.Keys;
    while rest != {}
      invariant rest <= opts.Keys && d.Writing(h, id, None)
      invariant d.patch == map k | k in opts.Keys - rest :: opts[k]
      decreases |rest|
    {
      var k :| k in rest;
      ghost var p := d.patch;
      d.DelK(id, k);
      d.AppendAll(id, k, opts[k]);
      assert [] + opts[k] == opts[k];
      assert d.patch == p[k := opts[k]];
      rest := rest - {k};
    }
    assert d.patch == opts;
    BegunIsPatch(h, id, opts);
  }

  method EnsureDeviceMac(d: Batch, before: Config, order: seq<string>, id: string, dev: string, mac: string)
    requires d.Valid()
    modifies d
    ensures d.Valid() && d.result == MacWritten(old(d.result), before, order, id, dev, mac)
  {
    hide Begun, RunBatch, SectionOf, TrimSpace, UciName, WriteSec, PatchSec;
    if dev == "" {
      return;
    }
    ghost var h := d.result;
    var sec := DeviceSectionByName(before, order, dev);
    if TrimSpace(mac) == "" {
      if sec != "" {
        d.Resume(sec);
        d.DelK(sec, "macaddr");
        BegunIsPatch(h, sec, map["macaddr" := []]);
      }
      return;
    }
    if sec == "" {
      sec := BuildUciName("dev_" + id);
      d.Open(sec, "device");
      d.SetKV(sec, "name", dev);
      d.SetKV(sec, MANAGED_BY, MARKER);
      d.SetKV(sec, "macaddr", mac);
      BegunIsSection(h, sec, "device", d.patch);
    } else {
      d.Resume(sec);
      d.SetKV(sec, "macaddr", mac);
      BegunIsPatch(h, sec, d.patch);
    }
  }

  class Interfaces {
    /** The network file. */
    var net: Config

    constructor (net: Config)
      ensures this.net == net
    {
      this.net := net;
    }

    /** `order` is the order in which the file lists its sections. */
    method SaveNetIface(nic: NetIface, order: seq<string>)
      requires Lists(order, net)
      modifies this
      ensures net == SavedIface(old(net), order, nic)
    {
      hide Begun, RunBatch, Bound, PatchSec, MacWritten, SectionOf, OldSection, ChosenDevice, UciName, Exec, Lists;
      var id := BuildUciName(nic.id);
      var oldSec := ManagedDeviceSectionOf(net, order, id);
      var dev := ChooseDevice(net, order, nic);
      var d := new Batch(net);
      EmitBound(d, net, order, nic, dev);
      EmitOptions(d, id, nic.opts);
      EnsureDeviceMac(d, net, order, id, dev, nic.cloneMac);
      if oldSec != "" {
        var newSec := DeviceSectionByName(net, order, dev);
        if oldSec != newSec {
          Removal(d.result, oldSec);
          d.Emit(DelSec(oldSec));
        }
      }
      NoRemoval(d.result);
      net := RunBatch(net, d.cmds);
    }

    method DeleteNetIface(id: string, order: seq<string>)
      modifies this
      ensures net == DeletedIface(old(net), order, id)
    {
      hide Begun, RunBatch, OldSection, UciName, Exec;
      var name := BuildUciName(id);
      var sec := ManagedDeviceSectionOf(net, order, name);
      var d := new Batch(net);
      Removal(d.result, name);
      d.Emit(DelSec(name));
      if sec != "" {
        Removal(d.result, sec);
        d.Emit(DelSec(sec));
      }
      NoRemoval(d.result);
      net := RunBatch(net, d.cmds);
    }
  }

  lemma Removal(c: Config, s: string)
    ensures Exec(c, DelSec(s)) == c - {s}
  {
  }

  lemma NoRemoval(c: Config)
    ensures c - {} == c
  {
  }
}
