/** The UCI configuration store as the router tools see it: a configuration file
    is a set of typed, named sections, each holding options; an option holds a
    list of values (a scalar is a list of one). `uci batch` runs commands one
    after the other. An option that is absent and an option without values are
    the same thing. */
module Uci {
  import opened Text

  /** Option names and section types are plain words. */
  type Opt = string

  type Opts = m: map<Opt, seq<string>> | forall o :: o in m ==> m[o] != [] witness map[]

  /** What a projection wants an option to hold; [] wants it gone. */
  type Patch = map<Opt, seq<string>>

  datatype Section = Section(typ: string, opts: Opts)

  type Config = map<string, Section>

  datatype Cmd =
    | SetType(sec: string, typ: string)
    | SetOpt(sec: string, opt: Opt, val: string)
    | DelOpt(sec: string, opt: Opt)
    | AddList(sec: string, opt: Opt, val: string)
    | DelList(sec: string, opt: Opt, val: string)
    | DelSec(sec: string)

  // ---- reading ----

  function OptGet(opts: Opts, o: Opt): seq<string> {
    if o in opts then opts[o] else []
  }

  function Get(c: Config, sec: string, o: Opt): seq<string> {
    if sec in c then OptGet(c[sec].opts, o) else []
  }

  function First(vs: seq<string>): string {
    if vs == [] then "" else vs[0]
  }

  /** `uci get`, with the surrounding white space trimmed as every caller does. */
  function UciGet(c: Config, sec: string, o: Opt): string {
    TrimSpace(Join(Get(c, sec, o), " "))
  }

  /** A scalar setting; UCI treats the empty value as a deletion. */
  function One(v: string): seq<string> {
    if v == "" then [] else [v]
  }

  function Without(vs: seq<string>, v: string): seq<string> {
    if vs == [] then []
    else Without(vs[..|vs| - 1], v) + (if vs[|vs| - 1] == v then [] else [vs[|vs| - 1]])
  }

  // ---- writing ----

  function OptPut(opts: Opts, o: Opt, vs: seq<string>): Opts {
    if vs == [] then opts - {o} else opts[o := vs]
  }

  function Put(c: Config, sec: string, o: Opt, vs: seq<string>): Config {
    if sec in c then c[sec := Section(c[sec].typ, OptPut(c[sec].opts, o, vs))] else c
  }

  function OldOpts(c: Config, sec: string): Opts {
    if sec in c then c[sec].opts else map[]
  }

  function Exec(c: Config, cmd: Cmd): Config {
    match cmd
    case SetType(s, t) => c[s := Section(t, OldOpts(c, s))]
    case SetOpt(s, o, v) => Put(c, s, o, One(v))
    case DelOpt(s, o) => Put(c, s, o, [])
    case AddList(s, o, v) => Put(c, s, o, Get(c, s, o) + [v])
    case DelList(s, o, v) => Put(c, s, o, Without(Get(c, s, o), v))
    case DelSec(s) => c - {s}
  }

  /** `uci batch`. */
  function RunBatch(c: Config, cmds: seq<Cmd>): Config {
    if cmds == [] then c else Exec(RunBatch(c, cmds[..|cmds| - 1]), cmds[|cmds| - 1])
  }

  lemma RunSnoc(c: Config, cmds: seq<Cmd>, cmd: Cmd)
    ensures RunBatch(c, cmds + [cmd]) == Exec(RunBatch(c, cmds), cmd)
  {
    assert (cmds + [cmd])[..|cmds|] == cmds;
  }

  // ---- absolute writes ----

  function Wanted(opts: Opts, patch: Patch, o: Opt): seq<string> {
    if o in patch then patch[o] else OptGet(opts, o)
  }

  function Overlay(opts: Opts, patch: Patch): Opts {
    map o | o in opts.Keys + patch.Keys && Wanted(opts, patch, o) != [] :: Wanted(opts, patch, o)
  }

  /** `set <sec>=<typ>` followed by option writes: the section exists with that
      type, the patched options hold what was wanted, the others stay. */
  function WriteSec(c: Config, sec: string, typ: string, patch: Patch): Config {
    c[sec := Section(typ, Overlay(OldOpts(c, sec), patch))]
  }

  /** Option writes alone: nothing happens when the section does not exist. */
  function PatchSec(c: Config, sec: string, patch: Patch): Config {
    if sec in c then c[sec := Section(c[sec].typ, Overlay(c[sec].opts, patch))] else c
  }

  lemma OverlayGet(opts: Opts, patch: Patch, o: Opt)
    ensures OptGet(Overlay(opts, patch), o) == Wanted(opts, patch, o)
  {
  }

  /** Options are determined by what they read as. */
  lemma OptsExtensional(a: Opts, b: Opts)
    requires forall o :: OptGet(a, o) == OptGet(b, o)
    ensures a == b
  {
    forall o ensures o in a <==> o in b {
      assert OptGet(a, o) == OptGet(b, o);
    }
    forall o | o in a ensures a[o] == b[o] {
      assert OptGet(a, o) == OptGet(b, o);
    }
  }

  lemma OptPutGet(opts: Opts, o: Opt, vs: seq<string>, p: Opt)
    ensures OptGet(OptPut(opts, o, vs), p) == if p == o then vs else OptGet(opts, p)
  {
  }

  lemma OverlayPut(opts: Opts, patch: Patch, o: Opt, vs: seq<string>)
    ensures OptPut(Overlay(opts, patch), o, vs) == Overlay(opts, patch[o := vs])
  {
    forall p ensures OptGet(OptPut(Overlay(opts, patch), o, vs), p) == OptGet(Overlay(opts, patch[o := vs]), p) {
      OptPutGet(Overlay(opts, patch), o, vs, p);
      OverlayGet(opts, patch, p);
      OverlayGet(opts, patch[o := vs], p);
    }
    OptsExtensional(OptPut(Overlay(opts, patch), o, vs), Overlay(opts, patch[o := vs]));
  }

  lemma PutAfterWrite(c: Config, sec: string, typ: string, patch: Patch, o: Opt, vs: seq<string>)
    ensures Put(WriteSec(c, sec, typ, patch), sec, o, vs) == WriteSec(c, sec, typ, patch[o := vs])
  {
    OverlayPut(OldOpts(c, sec), patch, o, vs);
    var a := Section(typ, Overlay(OldOpts(c, sec), patch));
    var b := Section(typ, Overlay(OldOpts(c, sec), patch[o := vs]));
    assert c[sec := a][sec := b] == c[sec := b];
  }

  lemma OverlayNothing(opts: Opts)
    ensures Overlay(opts, map[]) == opts
  {
  }

  lemma OverlayTwice(opts: Opts, patch: Patch)
    ensures Overlay(Overlay(opts, patch), patch) == Overlay(opts, patch)
  {
    forall o ensures OptGet(Overlay(Overlay(opts, patch), patch), o) == OptGet(Overlay(opts, patch), o) {
      OverlayGet(Overlay(opts, patch), patch, o);
      OverlayGet(opts, patch, o);
    }
    OptsExtensional(Overlay(Overlay(opts, patch), patch), Overlay(opts, patch));
  }

  /** Configurations are determined by their sections' types and what their
      options read as. */
  lemma ConfigExtensional(a: Config, b: Config)
    requires a.Keys == b.Keys
    requires forall s :: s in a ==> a[s].typ == b[s].typ
    requires forall s, o :: s in a ==> Get(a, s, o) == Get(b, s, o)
    ensures a == b
  {
    forall s | s in a ensures a[s] == b[s] {
      forall o ensures OptGet(a[s].opts, o) == OptGet(b[s].opts, o) {
        assert Get(a, s, o) == Get(b, s, o);
      }
      OptsExtensional(a[s].opts, b[s].opts);
    }
  }

  // ---- ownership markers ----

  const MANAGED_BY := "managed_by"
  const MARKER := "kwrt-net-manager"
  const MARKER_V6 := "kwrt-net-manager-v6"
  const MARKER_DNS := "kwrt-net-manager-dns"

  predicate CarriesMarker(s: Section, marker: string) {
    OptGet(s.opts, MANAGED_BY) == [marker]
  }

  function Marked(c: Config, marker: string): set<string> {
    set s | s in c && CarriesMarker(c[s], marker)
  }

  lemma MarkersDiffer()
    ensures MARKER != MARKER_V6 && MARKER != MARKER_DNS && MARKER_V6 != MARKER_DNS
  {
    assert |MARKER| == 16 && |MARKER_V6| == 19 && |MARKER_DNS| == 20;
  }

  // ---- section names ----

  predicate IsWordChar(c: char) {
    'a' <= c <= 'z' || 'A' <= c <= 'Z' || '0' <= c <= '9' || c == '_'
  }

  predicate IsName(s: string) {
    s != "" && !IsDigit(s[0]) && forall c :: c in s ==> IsWordChar(c)
  }

  function Sanitize(id: string): (s: string)
    ensures |s| == |id|
    ensures forall k :: 0 <= k < |s| ==> s[k] == if IsWordChar(id[k]) then id[k] else '_'
  {
    if id == "" then ""
    else Sanitize(id[..|id| - 1]) + [if IsWordChar(id[|id| - 1]) then id[|id| - 1] else '_']
  }

  /** The section name made from an id. */
  function UciName(id: string): string {
    var s := Sanitize(id);
    if s == "" || IsDigit(s[0]) then "nm_" + s else s
  }

  /** Every generated name is a valid one, and a valid name stays what it is. */
  lemma UciNameIsName(id: string)
    ensures IsName(UciName(id))
    ensures IsName(id) <==> UciName(id) == id
  {
    var s := Sanitize(id);
    forall c | c in s ensures IsWordChar(c) {
      var k :| 0 <= k < |s| && s[k] == c;
    }
    assert forall c :: c in "nm_" ==> IsWordChar(c);
    if IsName(id) {
      assert forall k :: 0 <= k < |id| ==> id[k] in id;
      assert s == id;
    }
    if UciName(id) == id {
      assert |"nm_" + s| == |s| + 3;
    }
  }

  /** The loop of `uciName`. */
  method BuildUciName(id: string) returns (s: string)
    ensures s == UciName(id)
  {
    s := "";
    for i := 0 to |id|
      invariant s == Sanitize(id[..i])
    {
      assert id[..i + 1][..i] == id[..i];
      s := s + [if IsWordChar(id[i]) then id[i] else '_'];
    }
    assert id[..|id|] == id;
    if s == "" || IsDigit(s[0]) {
      s := "nm_" + s;
    }
  }

  const DNSMASQ := "@dnsmasq[0]"

  lemma DnsmasqIsNoName()
    ensures !IsName(DNSMASQ)
  {
    assert DNSMASQ[0] == '@';
    assert '@' in DNSMASQ;
  }

  // ---- the batch builder ----

  /** A section write under way: begun with `set <sec>=<typ>`, or options alone. */
  function Begun(h: Config, sec: string, typ: Option<string>, patch: Patch): Config {
    if typ.Some? then WriteSec(h, sec, typ.value, patch) else PatchSec(h, sec, patch)
  }

  lemma BegunIsPatch(c: Config, s: string, p: Patch)
    ensures Begun(c, s, None, p) == PatchSec(c, s, p)
  {
  }

  lemma BegunIsSection(c: Config, s: string, typ: string, p: Patch)
    ensures Begun(c, s, Some(typ), p) == WriteSec(c, s, typ, p)
  {
  }

  lemma PutAfterPatch(h: Config, sec: string, patch: Patch, o: Opt, vs: seq<string>)
    ensures Put(PatchSec(h, sec, patch), sec, o, vs) == PatchSec(h, sec, patch[o := vs])
  {
    if sec in h {
      PutAfterWrite(h, sec, h[sec].typ, patch, o, vs);
    }
  }

  lemma PutAfterBegun(h: Config, sec: string, typ: Option<string>, patch: Patch, o: Opt, vs: seq<string>)
    ensures Put(Begun(h, sec, typ, patch), sec, o, vs) == Begun(h, sec, typ, patch[o := vs])
  {
    hide Put, WriteSec, PatchSec;
    if typ.Some? {
      PutAfterWrite(h, sec, typ.value, patch, o, vs);
    } else {
      PutAfterPatch(h, sec, patch, o, vs);
    }
  }

  /** What an option holds while its section is being written, if the section exists. */
  lemma BegunGet(h: Config, sec: string, typ: Option<string>, patch: Patch, o: Opt)
    requires o in patch
    ensures sec in Begun(h, sec, typ, patch) ==> Get(Begun(h, sec, typ, patch), sec, o) == patch[o]
    ensures sec !in Begun(h, sec, typ, patch) ==> forall p: Patch :: Begun(h, sec, typ, p) == Begun(h, sec, typ, patch)
  {
    OverlayGet(OldOpts(h, sec), patch, o);
  }

  lemma AppendAfterBegun(h: Config, sec: string, typ: Option<string>, patch: Patch, o: Opt, v: string)
    requires o in patch
    ensures Exec(Begun(h, sec, typ, patch), AddList(sec, o, v)) == Begun(h, sec, typ, patch[o := patch[o] + [v]])
  {
    hide Begun;
    BegunGet(h, sec, typ, patch, o);
    PutAfterBegun(h, sec, typ, patch, o, patch[o] + [v]);
  }

  lemma RemoveAfterBegun(h: Config, sec: string, typ: Option<string>, patch: Patch, o: Opt, v: string)
    requires o in patch
    ensures Exec(Begun(h, sec, typ, patch), DelList(sec, o, v)) == Begun(h, sec, typ, patch[o := Without(patch[o], v)])
  {
    hide Begun, Without;
    BegunGet(h, sec, typ, patch, o);
    PutAfterBegun(h, sec, typ, patch, o, Without(patch[o], v));
  }

  /** Wanting what is there already changes nothing. */
  lemma TouchBegun(h: Config, sec: string, typ: Option<string>, patch: Patch, o: Opt)
    requires o !in patch
    ensures Begun(h, sec, typ, patch[o := Get(h, sec, o)]) == Begun(h, sec, typ, patch)
  {
    var opts := OldOpts(h, sec);
    forall p ensures OptGet(Overlay(opts, patch[o := Get(h, sec, o)]), p) == OptGet(Overlay(opts, patch), p) {
      OverlayGet(opts, patch, p);
      OverlayGet(opts, patch[o := Get(h, sec, o)], p);
    }
    OptsExtensional(Overlay(opts, patch[o := Get(h, sec, o)]), Overlay(opts, patch));
  }

  /** Every value of `bad` removed, the others in order. */
  function Drop(vs: seq<string>, bad: seq<string>): seq<string> {
    if vs == [] then []
    else Drop(vs[..|vs| - 1], bad) + (if vs[|vs| - 1] in bad then [] else [vs[|vs| - 1]])
  }

  lemma {:induction false} WithoutConcat(a: seq<string>, b: seq<string>, v: string)
    ensures Without(a + b, v) == Without(a, v) + Without(b, v)
  {
    if b == [] {
      assert a + b == a;
    } else {
      assert (a + b)[..|a + b| - 1] == a + b[..|b| - 1];
      WithoutConcat(a, b[..|b| - 1], v);
    }
  }

  /** Removing one value after another is removing them all. */
  lemma {:induction false} DropOneMore(vs: seq<string>, bad: seq<string>, v: string)
    ensures Drop(vs, bad + [v]) == Without(Drop(vs, bad), v)
  {
    if vs != [] {
      var init, last := vs[..|vs| - 1], vs[|vs| - 1];
      DropOneMore(init, bad, v);
      WithoutConcat(Drop(init, bad), if last in bad then [] else [last], v);
      assert Without([last], v) == Without([], v) + (if last == v then [] else [last]);
    }
  }

  lemma {:induction false} DropNothing(vs: seq<string>)
    ensures Drop(vs, []) == vs
  {
    if vs != [] {
      DropNothing(vs[..|vs| - 1]);
    }
  }

  lemma {:induction false} DropMembers(a: seq<string>, bad: seq<string>)
    ensures forall v :: v in Drop(a, bad) <==> v in a && v !in bad
    ensures |Drop(a, bad)| <= |a|
    ensures Drop(a, bad) == a <==> forall v :: v in a ==> v !in bad
  {
    if a != [] {
      var init, last := a[..|a| - 1], a[|a| - 1];
      DropMembers(init, bad);
      assert a == init + [last];
      if Drop(a, bad) == a {
        assert last !in bad;
        assert Drop(init, bad) == a[..|a| - 1];
      }
    }
  }

  /** The text a projection accumulates before handing it to `uci batch`. Beside
      the commands it tracks their effect on the configuration they will be run
      on; between `Open` or `Resume` and the next command elsewhere that effect is
      one section write. */
  class Batch {
    var cmds: seq<Cmd>
    ghost const base: Config
    ghost var result: Config
    ghost var head: Config
    ghost var sec: string
    ghost var typ: Option<string>
    ghost var patch: Patch

    ghost predicate Valid() reads this {
      && result == RunBatch(base, cmds)
      && result == Begun(head, sec, typ, patch)
    }

    constructor (ghost c: Config)
      ensures Valid() && base == c && result == c && cmds == []
    {
      cmds := [];
      base := c;
      result := c;
      head := c;
      sec := "";
      typ := None;
      patch := map[];
      new;
      PatchNothing(c, "");
    }

    /** The section s is being written, on top of h. */
    ghost predicate Writing(h: Config, s: string, t: Option<string>) reads this {
      Valid() && head == h && sec == s && typ == t
    }

    /** `set <s>=<t>` */
    method Open(s: string, t: string)
      requires Valid()
      modifies this
      ensures Writing(old(result), s, Some(t)) && patch == map[]
    {
      hide Begun, RunBatch;
      OpenIsWrite(result, s, t);
      Push(SetType(s, t));
      head, sec, typ, patch := old(result), s, Some(t), map[];
    }

    /** The following commands set options of a section that is not created. */
    ghost method Resume(s: string)
      requires Valid()
      modifies this
      ensures Writing(old(result), s, None) && patch == map[]
      ensures result == old(result) && cmds == old(cmds)
    {
      PatchNothing(result, s);
      head, sec, typ, patch := result, s, None, map[];
    }

    /** One more command. */
    method Push(cmd: Cmd)
      requires result == RunBatch(base, cmds)
      modifies this
      ensures cmds == old(cmds) + [cmd]
      ensures result == RunBatch(base, cmds) == Exec(old(result), cmd)
      ensures head == old(head) && sec == old(sec) && typ == old(typ) && patch == old(patch)
    {
      RunSnoc(base, cmds, cmd);
      cmds := cmds + [cmd];
      result := Exec(result, cmd);
    }

    /** `set <s>.<o>='<v>'` */
    method SetKV(s: string, o: Opt, v: string)
      requires Valid() && s == sec
      modifies this
      ensures Writing(old(head), s, old(typ)) && patch == old(patch)[o := One(v)]
    {
      hide Begun, RunBatch, Put;
      PutAfterBegun(head, sec, typ, patch, o, One(v));
      Push(SetOpt(s, o, v));
      patch := patch[o := One(v)];
    }

    /** `delete <s>.<o>` */
    method DelK(s: string, o: Opt)
      requires Valid() && s == sec
      modifies this
      ensures Writing(old(head), s, old(typ)) && patch == old(patch)[o := []]
    {
      hide Begun, RunBatch, Put;
      PutAfterBegun(head, sec, typ, patch, o, []);
      Push(DelOpt(s, o));
      patch := patch[o := []];
    }

    /** `add_list <s>.<o>='<v>'`, when the option's value is known */
    method Append(s: string, o: Opt, v: string)
      requires Valid() && s == sec && o in patch
      modifies this
      ensures Writing(old(head), s, old(typ)) && patch == old(patch)[o := old(patch)[o] + [v]]
    {
      hide Begun, RunBatch, Exec;
      AppendAfterBegun(head, sec, typ, patch, o, v);
      Push(AddList(s, o, v));
      patch := patch[o := patch[o] + [v]];
    }

    /** `del_list <s>.<o>='<v>'`, when the option's value is known */
    method Remove(s: string, o: Opt, v: string)
      requires Valid() && s == sec && o in patch
      modifies this
      ensures Writing(old(head), s, old(typ)) && patch == old(patch)[o := Without(old(patch)[o], v)]
    {
      hide Begun, RunBatch, Exec, Without;
      RemoveAfterBegun(head, sec, typ, patch, o, v);
      Push(DelList(s, o, v));
      patch := patch[o := Without(patch[o], v)];
    }

    /** The option is about to be changed from what it holds. */
    ghost method Touch(o: Opt)
      requires Valid() && o !in patch
      modifies this
      ensures Writing(old(head), old(sec), old(typ)) && patch == old(patch)[o := Get(head, sec, o)]
      ensures result == old(result) && cmds == old(cmds)
    {
      TouchBegun(head, sec, typ, patch, o);
      patch := patch[o := Get(head, sec, o)];
    }

    method SetOrDel(s: string, o: Opt, v: string)
      requires Valid() && s == sec
      modifies this
      ensures Writing(old(head), s, old(typ))
      ensures patch == old(patch)[o := if TrimSpace(v) == "" then [] else One(v)]
    {
      if TrimSpace(v) == "" {
        DelK(s, o);
      } else {
        SetKV(s, o, v);
      }
    }

    method AppendAll(s: string, o: Opt, vs: seq<string>)
      requires Valid() && s == sec && o in patch
      modifies this
      ensures Writing(old(head), s, old(typ)) && patch == old(patch)[o := old(patch)[o] + vs]
    {
      hide Begun, RunBatch;
      ghost var p, h, t := patch, head, typ;
      assert p[o] + vs[..0] == p[o];
      for i := 0 to |vs|
        invariant Writing(h, s, t) && patch == p[o := p[o] + vs[..i]]
      {
        assert p[o] + vs[..i + 1] == p[o] + vs[..i] + [vs[i]];
        Append(s, o, vs[i]);
      }
      assert vs[..|vs|] == vs;
    }

    method RemoveAll(s: string, o: Opt, vs: seq<string>)
      requires Valid() && s == sec && o in patch
      modifies this
      ensures Writing(old(head), s, old(typ)) && patch == old(patch)[o := Drop(old(patch)[o], vs)]
    {
      hide Begun, RunBatch, Drop, Without;
      ghost var p, h, t := patch, head, typ;
      DropNothing(p[o]);
      for i := 0 to |vs|
        invariant Writing(h, s, t) && patch == p[o := Drop(p[o], vs[..i])]
      {
        assert vs[..i + 1] == vs[..i] + [vs[i]];
        DropOneMore(p[o], vs[..i], vs[i]);
        Remove(s, o, vs[i]);
      }
      assert vs[..|vs|] == vs;
    }

    /** A command outside any section write. */
    method Emit(cmd: Cmd)
      requires Valid()
      modifies this
      ensures Valid() && result == Exec(old(result), cmd)
    {
      hide Exec, RunBatch;
      Push(cmd);
      PatchNothing(result, "");
      head, sec, typ, patch := result, "", None, map[];
    }
  }

  lemma PatchNothing(c: Config, s: string)
    ensures PatchSec(c, s, map[]) == c
  {
    if s in c {
      OverlayNothing(c[s].opts);
    }
  }

  lemma OpenIsWrite(c: Config, s: string, t: string)
    ensures Exec(c, SetType(s, t)) == Begun(c, s, Some(t), map[])
  {
    OverlayNothing(OldOpts(c, s));
  }
}
