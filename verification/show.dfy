/** Reading back `uci show`: sections and options from its lines, list values from
    their quotes, and the scan for an ownership marker. */
module Show {
  import opened Text
  import opened Uci

  // ---- values ----

  /** The reader's state inside one right-hand side. */
  datatype Reading = Reading(out: seq<string>, cur: string, quoted: bool)

  function Flush(r: Reading): Reading {
    if r.cur == "" then r else r.(out := r.out + [r.cur], cur := "")
  }

  function ReadChar(r: Reading, c: char): Reading {
    if c == '\'' then r.(quoted := !r.quoted)
    else if c == ' ' && !r.quoted then Flush(r)
    else r.(cur := r.cur + [c])
  }

  function ReadChars(r: Reading, s: string): Reading
    decreases |s|
  {
    if s == "" then r else ReadChars(ReadChar(r, s[0]), s[1..])
  }

  function Values(s: string): seq<string> {
    Flush(ReadChars(Reading([], "", false), s)).out
  }

  method ParseUciValues(s: string) returns (out: seq<string>)
    ensures out == Values(s)
  {
    out := [];
    var cur, inq := "", false;
    assert s[0..] == s;
    for i := 0 to |s|
      invariant ReadChars(Reading(out, cur, inq), s[i..]) == ReadChars(Reading([], "", false), s)
    {
      assert s[i..][1..] == s[i + 1..];
      if s[i] == '\'' {
        inq := !inq;
      } else if s[i] == ' ' && !inq {
        if |cur| > 0 {
          out := out + [cur];
          cur := "";
        }
      } else {
        cur := cur + [s[i]];
      }
    }
    if |cur| > 0 {
      out := out + [cur];
    }
  }

  lemma {:induction false} ReadConcat(r: Reading, a: string, b: string)
    ensures ReadChars(r, a + b) == ReadChars(ReadChars(r, a), b)
    decreases |a|
  {
    if a == "" {
      assert a + b == b;
    } else {
      assert (a + b)[1..] == a[1..] + b;
      ReadConcat(ReadChar(r, a[0]), a[1..], b);
    }
  }

  /** What a value must be like to be shown and read back. */
  predicate Plain(v: string) {
    v != "" && '\'' !in v && '\n' !in v
  }

  lemma {:induction false} ReadQuoted(r: Reading, v: string)
    requires '\'' !in v && r.quoted
    ensures ReadChars(r, v) == r.(cur := r.cur + v)
    decreases |v|
  {
    if v == "" {
      assert r.cur + v == r.cur;
    } else {
      ReadQuoted(ReadChar(r, v[0]), v[1..]);
      assert r.cur + [v[0]] + v[1..] == r.cur + v;
    }
  }

  function Quoted(v: string): string {
    "'" + v + "'"
  }

  lemma ReadOne(out: seq<string>, v: string)
    requires Plain(v)
    ensures ReadChars(Reading(out, "", false), Quoted(v)) == Reading(out, v, false)
  {
    var r := Reading(out, "", false);
    assert Quoted(v) == ("'" + v) + "'";
    ReadConcat(r, "'" + v, "'");
    ReadConcat(r, "'", v);
    assert ReadChars(r, "'") == ReadChars(r.(quoted := true), "'"[1..]);
    ReadQuoted(r.(quoted := true), v);
    assert "" + v == v;
    var q := Reading(out, v, true);
    assert ReadChars(q, "'") == ReadChars(q.(quoted := false), "'"[1..]);
  }

  /** How a list of values is shown. */
  function Shown(vs: seq<string>): string {
    if vs == [] then ""
    else if |vs| == 1 then Quoted(vs[0])
    else Shown(vs[..|vs| - 1]) + " " + Quoted(vs[|vs| - 1])
  }

  predicate AllPlain(vs: seq<string>) {
    forall v :: v in vs ==> Plain(v)
  }

  lemma {:induction false} ReadShown(vs: seq<string>)
    requires vs != [] && AllPlain(vs)
    ensures ReadChars(Reading([], "", false), Shown(vs)) == Reading(vs[..|vs| - 1], vs[|vs| - 1], false)
  {
    var init, last := vs[..|vs| - 1], vs[|vs| - 1];
    var start := Reading([], "", false);
    assert Plain(last);
    if |vs| == 1 {
      ReadOne([], last);
    } else {
      ReadShown(init);
      var mid := Reading(init[..|init| - 1], init[|init| - 1], false);
      assert Plain(init[|init| - 1]);
      ReadConcat(start, Shown(init) + " ", Quoted(last));
      ReadConcat(start, Shown(init), " ");
      assert ReadChars(mid, " ") == ReadChars(ReadChar(mid, ' '), " "[1..]);
      assert init[..|init| - 1] + [init[|init| - 1]] == init;
      ReadOne(init, last);
    }
  }

  /** Reading inverts showing for plain values. */
  lemma ValuesOfShown(vs: seq<string>)
    requires AllPlain(vs)
    ensures Values(Shown(vs)) == vs
  {
    if vs != [] {
      ReadShown(vs);
      assert Plain(vs[|vs| - 1]);
      assert vs[..|vs| - 1] + [vs[|vs| - 1]] == vs;
    }
  }

  // ---- sections ----

  datatype UciSec = UciSec(name: string, typ: string, opts: map<string, seq<string>>)

  /** Where the section of that name is, or |secs|. */
  function Position(secs: seq<UciSec>, name: string): (i: nat)
    ensures i <= |secs|
    ensures i < |secs| ==> secs[i].name == name
    ensures forall k :: 0 <= k < i ==> secs[k].name != name
  {
    if secs == [] || secs[0].name == name then 0 else 1 + Position(secs[1..], name)
  }

  function Ensured(secs: seq<UciSec>, name: string): (r: seq<UciSec>)
    ensures Position(secs, name) < |r| && r[Position(secs, name)].name == name
  {
    if Position(secs, name) < |secs| then secs else secs + [UciSec(name, "", map[])]
  }

  /** Quotes removed at both ends. */
  function TrimQuotes(s: string): string
    decreases |s|
  {
    if s != "" && s[0] == '\'' then TrimQuotes(s[1..])
    else if s != "" && s[|s| - 1] == '\'' then TrimQuotes(s[..|s| - 1])
    else s
  }

  /** Take in what stands on the two sides of the `=`. */
  function Recorded(secs: seq<UciSec>, left: string, right: string): seq<UciSec> {
    var dot := IndexOf(left, '.');
    var at := Position(secs, left[..dot]);
    var now := Ensured(secs, left[..dot]);
    if dot == |left| then now[at := now[at].(typ := TrimQuotes(right))]
    else now[at := now[at].(opts := now[at].opts[left[dot + 1..] := Values(right)])]
  }

  function ReadLine(secs: seq<UciSec>, config: string, raw: string): seq<UciSec> {
    var line := TrimSpace(raw);
    if !HasPrefix(line, config + ".") then secs
    else
      var body := line[|config| + 1..];
      var eq := IndexOf(body, '=');
      if eq == |body| then secs else Recorded(secs, body[..eq], body[eq + 1..])
  }

  function ReadLines(secs: seq<UciSec>, config: string, lines: seq<string>): seq<UciSec>
    decreases |lines|
  {
    if lines == [] then secs else ReadLines(ReadLine(secs, config, lines[0]), config, lines[1..])
  }

  function Parsed(show: string, config: string): seq<UciSec> {
    ReadLines([], config, Split(show, '\n'))
  }

  ghost predicate Indexed(secs: seq<UciSec>, idx: map<string, nat>) {
    && (forall n :: n in idx ==> idx[n] < |secs| && secs[idx[n]].name == n)
    && (forall k :: 0 <= k < |secs| ==> secs[k].name in idx && idx[secs[k].name] == k)
  }

  lemma IndexedPosition(secs: seq<UciSec>, idx: map<string, nat>, name: string)
    requires Indexed(secs, idx)
    ensures Position(secs, name) == if name in idx then idx[name] else |secs|
  {
    var i := Position(secs, name);
    if i < |secs| {
      assert secs[i].name in idx;
    }
  }

  method Ensure(secs: seq<UciSec>, idx: map<string, nat>, name: string)
    returns (now: seq<UciSec>, index: map<string, nat>, at: nat)
    requires Indexed(secs, idx)
    ensures Indexed(now, index) && now == Ensured(secs, name) && at == Position(secs, name) && at < |now|
  {
    IndexedPosition(secs, idx, name);
    if name in idx {
      return secs, idx, idx[name];
    }
    index := idx[name := |secs|];
    now := secs + [UciSec(name, "", map[])];
    at := |secs|;
  }

  lemma IndexedUpdate(secs: seq<UciSec>, idx: map<string, nat>, at: nat, s: UciSec)
    requires Indexed(secs, idx) && at < |secs| && s.name == secs[at].name
    ensures Indexed(secs[at := s], idx)
  {
  }

  method Record(secs: seq<UciSec>, idx: map<string, nat>, left: string, right: string)
    returns (now: seq<UciSec>, index: map<string, nat>)
    requires Indexed(secs, idx)
    ensures Indexed(now, index) && now == Recorded(secs, left, right)
  {
    hide Values, TrimQuotes, Indexed, Ensured, Position, IndexOf;
    var dot := IndexOf(left, '.');
    var at;
    now, index, at := Ensure(secs, idx, left[..dot]);
    var s := now[at];
    if dot == |left| {
      s := s.(typ := TrimQuotes(right));
    } else {
      var vs := ParseUciValues(right);
      s := s.(opts := s.opts[left[dot + 1..] := vs]);
    }
    IndexedUpdate(now, index, at, s);
    now := now[at := s];
  }

  method ParseUci(show: string, config: string) returns (secs: seq<UciSec>)
    ensures secs == Parsed(show, config)
  {
    hide Recorded, TrimSpace, Indexed, IndexOf, HasPrefix;
    var prefix := config + ".";
    var lines := Split(show, '\n');
    var idx: map<string, nat> := map[];
    secs := [];
    NothingIndexed();
    assert lines[0..] == lines;
    for k := 0 to |lines|
      invariant Indexed(secs, idx)
      invariant ReadLines(secs, config, lines[k..]) == Parsed(show, config)
    {
      assert lines[k..][1..] == lines[k + 1..];
      var line := TrimSpace(lines[k]);
      if HasPrefix(line, prefix) {
        PrefixFits(line, prefix);
        var body := line[|prefix|..];
        var eq := IndexOf(body, '=');
        if eq < |body| {
          secs, idx := Record(secs, idx, body[..eq], body[eq + 1..]);
        }
      }
    }
  }

  lemma PrefixFits(s: string, p: string)
    requires HasPrefix(s, p)
    ensures |p| <= |s|
  {
  }

  lemma NothingIndexed()
    ensures Indexed([], map[])
  {
  }

  // ---- showing ----

  datatype Entry = Entry(opt: string, vals: seq<string>)

  /** A section as `uci show` walks it: options in some order. */
  datatype Sec = Sec(name: string, typ: string, entries: seq<Entry>)

  function DeclLine(config: string, s: Sec): string {
    config + "." + s.name + "=" + s.typ
  }

  function EntryLine(config: string, name: string, e: Entry): string {
    config + "." + name + "." + e.opt + "=" + Shown(e.vals)
  }

  function EntryLines(config: string, name: string, es: seq<Entry>): seq<string> {
    if es == [] then []
    else EntryLines(config, name, es[..|es| - 1]) + [EntryLine(config, name, es[|es| - 1])]
  }

  function SecLines(config: string, ss: seq<Sec>): seq<string> {
    if ss == [] then []
    else
      var s := ss[|ss| - 1];
      SecLines(config, ss[..|ss| - 1]) + [DeclLine(config, s)] + EntryLines(config, s.name, s.entries)
  }

  function Lines(ls: seq<string>): string {
    if ls == [] then "" else ls[0] + "\n" + Lines(ls[1..])
  }

  function ShowText(config: string, ss: seq<Sec>): string {
    Lines(SecLines(config, ss))
  }

  /** File names and section types may have dashes and more in them. */
  predicate ConfigName(config: string) {
    config != "" && !IsSpace(config[0]) && '\n' !in config
  }

  /** What a section or an option can be called: valid names, and the position of an
      anonymous section. */
  predicate ShownName(s: string) {
    s != "" && !IsSpace(s[0]) && !IsSpace(s[|s| - 1]) && '=' !in s && '.' !in s && '\'' !in s && '\n' !in s
  }

  lemma NamesAreShown(s: string)
    requires IsName(s) || s == DNSMASQ
    ensures ShownName(s)
  {
    if IsName(s) {
      assert s[0] in s && s[|s| - 1] in s;
    }
  }

  predicate TypeName(typ: string) {
    typ != "" && '\'' !in typ && '\n' !in typ && !IsSpace(typ[|typ| - 1])
  }

  predicate Showable(s: Sec) {
    && ShownName(s.name) && TypeName(s.typ)
    && (forall e :: e in s.entries ==> ShownName(e.opt) && e.vals != [] && AllPlain(e.vals))
    && (forall j, k :: 0 <= j < k < |s.entries| ==> s.entries[j].opt != s.entries[k].opt)
  }

  predicate AllShowable(ss: seq<Sec>) {
    && (forall s :: s in ss ==> Showable(s))
    && (forall j, k :: 0 <= j < k < |ss| ==> ss[j].name != ss[k].name)
  }

  function OptsOf(es: seq<Entry>): map<string, seq<string>> {
    if es == [] then map[] else OptsOf(es[..|es| - 1])[es[|es| - 1].opt := es[|es| - 1].vals]
  }

  function Read(s: Sec): UciSec {
    UciSec(s.name, s.typ, OptsOf(s.entries))
  }

  function ReadAll(ss: seq<Sec>): (r: seq<UciSec>)
    ensures |r| == |ss| && forall k :: 0 <= k < |ss| ==> r[k] == Read(ss[k])
  {
    if ss == [] then [] else ReadAll(ss[..|ss| - 1]) + [Read(ss[|ss| - 1])]
  }

  // ---- lines back from the text ----

  lemma {:induction false} LinesOfText(ls: seq<string>)
    requires forall l :: l in ls ==> '\n' !in l
    ensures Split(Lines(ls), '\n') == ls + [""]
  {
    if ls == [] {
      SplitSingle("", '\n');
    } else {
      LinesOfText(ls[1..]);
      SplitHead(ls[0], '\n', Lines(ls[1..]));
      assert Lines(ls) == ls[0] + ['\n'] + Lines(ls[1..]);
      assert ls == [ls[0]] + ls[1..];
    }
  }

  lemma {:induction false} ReadLinesConcat(secs: seq<UciSec>, config: string, a: seq<string>, b: seq<string>)
    ensures ReadLines(secs, config, a + b) == ReadLines(ReadLines(secs, config, a), config, b)
    decreases |a|
  {
    hide ReadLine;
    if a == [] {
      assert a + b == b;
    } else {
      assert (a + b)[1..] == a[1..] + b;
      ReadLinesConcat(ReadLine(secs, config, a[0]), config, a[1..], b);
    }
  }

  lemma ReadOneLine(secs: seq<UciSec>, config: string, line: string)
    ensures ReadLines(secs, config, [line]) == ReadLine(secs, config, line)
  {
    hide ReadLine;
    assert [line][1..] == [];
  }

  // ---- one line ----

  lemma NameIsPlain(s: string)
    requires ShownName(s)
    ensures s != "" && '=' !in s && '.' !in s && '\'' !in s && '\n' !in s
    ensures !IsSpace(s[0]) && !IsSpace(s[|s| - 1])
  {
  }

  lemma ConfigIsPlain(config: string)
    requires ConfigName(config)
    ensures config != "" && !IsSpace(config[0]) && '\n' !in config
  {
  }

  lemma TypeIsPlain(typ: string)
    requires TypeName(typ)
    ensures typ != "" && '\'' !in typ && '\n' !in typ && !IsSpace(typ[|typ| - 1])
  {
  }

  lemma NoQuotesToTrim(s: string)
    requires '\'' !in s
    ensures TrimQuotes(s) == s
  {
  }

  /** A line `config.left=right` taken apart. */
  lemma LineParts(config: string, left: string, right: string)
    requires ConfigName(config) && '=' !in left && right != "" && !IsSpace(right[|right| - 1])
    ensures var line := config + "." + left + "=" + right;
      TrimSpace(line) == line && HasPrefix(line, config + ".") &&
      var body := line[|config| + 1..];
      IndexOf(body, '=') == |left| < |body| && body[..|left|] == left && body[|left| + 1..] == right
  {
    hide IndexOf, TrimSpace;
    var line := config + "." + left + "=" + right;
    ConfigIsPlain(config);
    assert line[0] == config[0] && line[|line| - 1] == right[|right| - 1];
    TrimmedIsFixed(line);
    assert line[|config| + 1..] == left + ['='] + right;
    IndexOfHead(left, '=', right);
  }

  lemma ReadParts(secs: seq<UciSec>, config: string, left: string, right: string)
    requires ConfigName(config) && '=' !in left && right != "" && !IsSpace(right[|right| - 1])
    ensures ReadLine(secs, config, config + "." + left + "=" + right) == Recorded(secs, left, right)
  {
    hide IndexOf, TrimSpace, Recorded, ShownName, HasPrefix;
    LineParts(config, left, right);
  }

  lemma ReadDecl(secs: seq<UciSec>, config: string, s: Sec)
    requires ConfigName(config) && ShownName(s.name) && TypeName(s.typ) && Position(secs, s.name) == |secs|
    ensures ReadLine(secs, config, DeclLine(config, s)) == secs + [UciSec(s.name, s.typ, map[])]
  {
    hide IndexOf, ReadLine, TrimQuotes, Position, ShownName, ConfigName, TypeName;
    NameIsPlain(s.name);
    TypeIsPlain(s.typ);
    ReadParts(secs, config, s.name, s.typ);
    IndexOfNone(s.name, '.');
    NoQuotesToTrim(s.typ);
    assert s.name[..|s.name|] == s.name;
    var now := secs + [UciSec(s.name, "", map[])];
    assert now[|secs| := UciSec(s.name, s.typ, map[])] == secs + [UciSec(s.name, s.typ, map[])];
  }

  lemma ShownEnds(vs: seq<string>)
    requires vs != []
    ensures Shown(vs) != "" && Shown(vs)[|Shown(vs)| - 1] == '\''
  {
  }

  lemma RecordOption(secs: seq<UciSec>, cur: UciSec, opt: string, right: string)
    requires ShownName(cur.name) && Position(secs, cur.name) == |secs|
    ensures Recorded(secs + [cur], cur.name + "." + opt, right) == secs + [cur.(opts := cur.opts[opt := Values(right)])]
  {
    hide IndexOf, Values, Position, ShownName, ConfigName, TypeName;
    var left := cur.name + ['.'] + opt;
    NameIsPlain(cur.name);
    IndexOfHead(cur.name, '.', opt);
    assert left[..|cur.name|] == cur.name && left[|cur.name| + 1..] == opt;
    PositionLast(secs, cur);
    var at, now := |secs|, secs + [cur];
    assert now[at := cur.(opts := cur.opts[opt := Values(right)])] == secs + [cur.(opts := cur.opts[opt := Values(right)])];
  }

  lemma ReadEntry(secs: seq<UciSec>, config: string, cur: UciSec, e: Entry)
    requires ConfigName(config) && ShownName(cur.name) && ShownName(e.opt) && e.vals != [] && AllPlain(e.vals)
    requires Position(secs, cur.name) == |secs|
    ensures ReadLine(secs + [cur], config, EntryLine(config, cur.name, e)) == secs + [cur.(opts := cur.opts[e.opt := e.vals])]
  {
    hide ReadLine, Recorded, Values, Position, ShownName, Shown, AllPlain;
    NameIsPlain(cur.name);
    NameIsPlain(e.opt);
    ShownEnds(e.vals);
    var left := cur.name + "." + e.opt;
    ReadParts(secs + [cur], config, left, Shown(e.vals));
    assert EntryLine(config, cur.name, e) == config + "." + left + "=" + Shown(e.vals);
    RecordOption(secs, cur, e.opt, Shown(e.vals));
    ValuesOfShown(e.vals);
  }

  lemma PositionLast(secs: seq<UciSec>, cur: UciSec)
    requires Position(secs, cur.name) == |secs|
    ensures Position(secs + [cur], cur.name) == |secs|
  {
    var i := Position(secs + [cur], cur.name);
    assert (secs + [cur])[|secs|] == cur;
    assert forall k :: 0 <= k < |secs| ==> (secs + [cur])[k].name != cur.name;
  }

  // ---- whole texts ----

  lemma {:induction false} ReadEntries(secs: seq<UciSec>, config: string, name: string, typ: string, es: seq<Entry>)
    requires ConfigName(config) && ShownName(name) && Position(secs, name) == |secs|
    requires forall e :: e in es ==> ShownName(e.opt) && e.vals != [] && AllPlain(e.vals)
    ensures ReadLines(secs + [UciSec(name, typ, map[])], config, EntryLines(config, name, es))
      == secs + [UciSec(name, typ, OptsOf(es))]
  {
    hide ReadLine, EntryLine, AllPlain, ShownName, ConfigName, ReadLines;
    if es == [] {
      NoLines(secs + [UciSec(name, typ, map[])], config);
    } else {
      var init, e := es[..|es| - 1], es[|es| - 1];
      var start := secs + [UciSec(name, typ, map[])];
      ReadEntries(secs, config, name, typ, init);
      ReadLinesConcat(start, config, EntryLines(config, name, init), [EntryLine(config, name, e)]);
      ReadOneLine(secs + [UciSec(name, typ, OptsOf(init))], config, EntryLine(config, name, e));
      assert e in es;
      ReadEntry(secs, config, UciSec(name, typ, OptsOf(init)), e);
    }
  }

  lemma NoLines(secs: seq<UciSec>, config: string)
    ensures ReadLines(secs, config, []) == secs
  {
  }

  lemma FreshName(ss: seq<Sec>)
    requires ss != [] && AllShowable(ss)
    ensures Position(ReadAll(ss[..|ss| - 1]), ss[|ss| - 1].name) == |ss| - 1
    ensures AllShowable(ss[..|ss| - 1]) && Showable(ss[|ss| - 1])
  {
    hide Showable;
    var init, s := ss[..|ss| - 1], ss[|ss| - 1];
    forall k | 0 <= k < |init| ensures ReadAll(init)[k].name != s.name {
      assert init[k] == ss[k];
    }
  }

  lemma {:induction false} ReadSecs(config: string, ss: seq<Sec>)
    requires ConfigName(config) && AllShowable(ss)
    ensures ReadLines([], config, SecLines(config, ss)) == ReadAll(ss)
  {
    hide ReadLines, ReadLine, DeclLine, EntryLines, Position, AllShowable, ShownName, ConfigName, TypeName, AllPlain;
    if ss == [] {
      NoLines([], config);
    } else {
      var init, s := ss[..|ss| - 1], ss[|ss| - 1];
      FreshName(ss);
      ReadSecs(config, init);
      var so := ReadAll(init);
      ReadLinesConcat([], config, SecLines(config, init) + [DeclLine(config, s)], EntryLines(config, s.name, s.entries));
      ReadLinesConcat([], config, SecLines(config, init), [DeclLine(config, s)]);
      ReadOneLine(so, config, DeclLine(config, s));
      ReadDecl(so, config, s);
      ReadEntries(so, config, s.name, s.typ, s.entries);
    }
  }

  lemma {:induction false} ShownNoBreak(vs: seq<string>)
    requires AllPlain(vs)
    ensures '\n' !in Shown(vs)
  {
    if |vs| > 1 {
      ShownNoBreak(vs[..|vs| - 1]);
    }
    if vs != [] {
      assert Plain(vs[|vs| - 1]);
    }
  }

  lemma {:induction false} EntriesNoBreak(config: string, name: string, es: seq<Entry>)
    requires ConfigName(config) && ShownName(name)
    requires forall e :: e in es ==> ShownName(e.opt) && e.vals != [] && AllPlain(e.vals)
    ensures forall l :: l in EntryLines(config, name, es) ==> '\n' !in l
  {
    hide AllPlain, Shown, ShownName, ConfigName, TypeName;
    if es != [] {
      var e := es[|es| - 1];
      assert e in es;
      EntriesNoBreak(config, name, es[..|es| - 1]);
      ConfigIsPlain(config);
      NameIsPlain(name);
      NameIsPlain(e.opt);
      ShownNoBreak(e.vals);
    }
  }

  lemma {:induction false} SecsNoBreak(config: string, ss: seq<Sec>)
    requires ConfigName(config) && AllShowable(ss)
    ensures forall l :: l in SecLines(config, ss) ==> '\n' !in l
  {
    hide AllShowable, EntryLines, AllPlain, ShownName, Position;
    if ss != [] {
      var s := ss[|ss| - 1];
      FreshName(ss);
      SecsNoBreak(config, ss[..|ss| - 1]);
      ConfigIsPlain(config);
      NameIsPlain(s.name);
      TypeIsPlain(s.typ);
      EntriesNoBreak(config, s.name, s.entries);
    }
  }

  lemma EmptyLine(secs: seq<UciSec>, config: string)
    ensures ReadLine(secs, config, "") == secs
  {
  }

  /** Parsing inverts `uci show`: sections, types, options and list values come back
      in order. */
  lemma ParseOfShow(config: string, ss: seq<Sec>)
    requires ConfigName(config) && AllShowable(ss)
    ensures Parsed(ShowText(config, ss), config) == ReadAll(ss)
  {
    hide SecLines, ReadLines, ReadLine, AllShowable, ShownName, ConfigName, TypeName;
    var ls := SecLines(config, ss);
    SecsNoBreak(config, ss);
    LinesOfText(ls);
    ReadLinesConcat([], config, ls, [""]);
    ReadSecs(config, ss);
    ReadOneLine(ReadAll(ss), config, "");
    EmptyLine(ReadAll(ss), config);
  }

  // ---- the marker scan ----

  function MarkerSuffix(opt: string, marker: string): string {
    "." + opt + "=" + Quoted(marker)
  }

  /** The section a line gives the marker to: None when it does not, and a failure
      when the line is nothing but prefix and suffix sharing their dot. */
  datatype Hit = Miss | Hit(name: string) | Crash

  function MarkedBy(config: string, marker: string, raw: string): Hit {
    var line := TrimSpace(raw);
    if !HasPrefix(line, config + ".") || !HasSuffix(line, MarkerSuffix(MANAGED_BY, marker)) then Miss
    else
      var rest := line[|config| + 1..];
      var dot := IndexOf(rest, '.');
      if dot == |rest| then Crash else Hit(rest[..dot])
  }

  /** The names of all marked sections, each once, in order; None for a crash. */
  function MarkedNames(config: string, marker: string, lines: seq<string>): Option<seq<string>> {
    if lines == [] then Some([])
    else
      match MarkedNames(config, marker, lines[..|lines| - 1])
      case None => None
      case Some(names) =>
        match MarkedBy(config, marker, lines[|lines| - 1])
        case Crash => None
        case Miss => Some(names)
        case Hit(n) => Some(if n == "" || n in names then names else names + [n])
  }

  method ManagedSectionsMarker(show: string, config: string, marker: string) returns (names: Option<seq<string>>)
    ensures names == MarkedNames(config, marker, Split(show, '\n'))
  {
    hide TrimSpace, HasPrefix, HasSuffix;
    var lines := Split(show, '\n');
    var found: seq<string> := [];
    var seen: set<string> := {};
    for i := 0 to |lines|
      invariant MarkedNames(config, marker, lines[..i]) == Some(found)
      invariant seen == set n | n in found
    {
      assert lines[..i + 1][..i] == lines[..i];
      var hit := MarkedBy(config, marker, lines[i]);
      if hit.Crash? {
        CrashStays(config, marker, lines, i + 1);
        return None;
      }
      if hit.Hit? && hit.name != "" && hit.name !in seen {
        seen := seen + {hit.name};
        found := found + [hit.name];
      }
    }
    assert lines[..|lines|] == lines;
    names := Some(found);
  }

  lemma {:induction false} CrashStays(config: string, marker: string, lines: seq<string>, i: nat)
    requires i <= |lines| && MarkedNames(config, marker, lines[..i]).None?
    ensures MarkedNames(config, marker, lines).None?
    decreases |lines| - i
  {
    hide MarkedBy;
    if i == |lines| {
      assert lines[..i] == lines;
    } else {
      assert lines[..i + 1][..i] == lines[..i];
      CrashStays(config, marker, lines, i + 1);
    }
  }

  lemma TailTooShort(a: string, v: string, b: string, m: string, mark: char)
    requires mark !in m && |v| < |m|
    ensures !HasSuffix(a + [mark] + v, b + [mark] + m)
  {
    var s, t := a + [mark] + v, b + [mark] + m;
    if |t| <= |s| {
      var k := |s| - |t|;
      assert s[k..][|a| - k] == mark;
      assert t[|a| - k] == m[|a| - k - |b| - 1];
    }
  }

  lemma TailTooLong(a: string, v: string, b: string, m: string, mark: char)
    requires mark !in v && |v| > |m|
    ensures !HasSuffix(a + [mark] + v, b + [mark] + m)
  {
    var s, t := a + [mark] + v, b + [mark] + m;
    if |t| <= |s| {
      var k := |s| - |t|;
      assert t[|b|] == mark;
      assert s[k..][|b|] == v[k + |b| - |a| - 1];
    }
  }

  /** The last piece of a text, cut at a mark that it does not contain, decides about a
      suffix that is cut at the same mark. */
  lemma SuffixAtMark(a: string, v: string, b: string, m: string, mark: char)
    requires mark !in v && mark !in m
    ensures HasSuffix(a + [mark] + v, b + [mark] + m) <==> v == m && HasSuffix(a, b)
  {
    if |v| < |m| {
      TailTooShort(a, v, b, m, mark);
    } else if |v| > |m| {
      TailTooLong(a, v, b, m, mark);
    } else if |b| <= |a| {
      var s, k := a + [mark] + v, |a| - |b|;
      assert s[k..] == a[k..] + [mark] + v;
      assert (a[k..] + [mark] + v)[..|b|] == a[k..] && (b + [mark] + m)[..|b|] == b;
      assert (a[k..] + [mark] + v)[|b| + 1..] == v && (b + [mark] + m)[|b| + 1..] == m;
    }
  }

  /** A shown option line ends in the marker suffix exactly when it is that option
      and the marker is its only value. */
  lemma EntrySuffix(config: string, name: string, e: Entry, opt: string, marker: string)
    requires ShownName(e.opt) && ShownName(opt) && e.vals != [] && AllPlain(e.vals) && '\'' !in marker
    ensures HasSuffix(EntryLine(config, name, e), MarkerSuffix(opt, marker)) <==> e.opt == opt && e.vals == [marker]
  {
    hide HasSuffix, ShownName, ConfigName, TypeName, AllPlain;
    var last := e.vals[|e.vals| - 1];
    PlainMember(e.vals, last);
    NameIsPlain(e.opt);
    NameIsPlain(opt);
    var suffix := MarkerSuffix(opt, marker);
    var head := config + "." + name + "." + e.opt + "=";
    if |e.vals| == 1 {
      assert EntryLine(config, name, e) == (head + ['\''] + last) + "'";
      assert suffix == ("." + opt + "=" + ['\''] + marker) + "'";
      LastQuote(head + ['\''] + last, "." + opt + "=" + ['\''] + marker);
      SuffixAtMark(head, last, "." + opt + "=", marker, '\'');
      SuffixAtEnd(config + "." + name + "." + e.opt, "." + opt, "=");
      assert config + "." + name + "." + e.opt == (config + "." + name) + ['.'] + e.opt;
      assert "." + opt == "" + ['.'] + opt;
      SuffixAtMark(config + "." + name, e.opt, "", opt, '.');
      EmptySuffix(config + "." + name);
    } else {
      var more := head + Shown(e.vals[..|e.vals| - 1]) + " ";
      assert EntryLine(config, name, e) == (more + ['\''] + last) + "'";
      assert suffix == ("." + opt + "=" + ['\''] + marker) + "'";
      LastQuote(more + ['\''] + last, "." + opt + "=" + ['\''] + marker);
      SuffixAtMark(more, last, "." + opt + "=", marker, '\'');
      LastDiffers(more, "." + opt + "=");
    }
  }

  lemma PlainMember(vs: seq<string>, v: string)
    requires AllPlain(vs) && v in vs
    ensures Plain(v)
  {
  }

  lemma LastQuote(a: string, b: string)
    ensures HasSuffix(a + "'", b + "'") <==> HasSuffix(a, b)
  {
    SuffixAtEnd(a, b, "'");
  }

  lemma SuffixAtEnd(a: string, b: string, e: string)
    ensures HasSuffix(a + e, b + e) <==> HasSuffix(a, b)
  {
    var s, t := a + e, b + e;
    if |b| <= |a| {
      var k := |a| - |b|;
      assert s[k..] == a[k..] + e;
      if s[k..] == t {
        assert a[k..] == s[k..][..|b|] == t[..|b|] == b;
      }
    }
  }

  lemma EmptySuffix(a: string)
    ensures HasSuffix(a, "")
  {
  }

  lemma LastDiffers(a: string, b: string)
    requires a != "" && b != "" && a[|a| - 1] != b[|b| - 1]
    ensures !HasSuffix(a, b)
  {
    if |b| <= |a| {
      assert a[|a| - |b|..][|b| - 1] == a[|a| - 1];
    }
  }

  lemma DeclSuffix(config: string, s: Sec, opt: string, marker: string)
    requires TypeName(s.typ)
    ensures !HasSuffix(DeclLine(config, s), MarkerSuffix(opt, marker))
  {
    hide HasSuffix;
    TypeIsPlain(s.typ);
    var line := DeclLine(config, s);
    assert line[|line| - 1] == s.typ[|s.typ| - 1];
    assert s.typ[|s.typ| - 1] in s.typ;
    LastDiffers(line, MarkerSuffix(opt, marker));
  }

  lemma MarkedDecl(config: string, s: Sec, marker: string)
    requires ConfigName(config) && Showable(s)
    ensures MarkedBy(config, marker, DeclLine(config, s)) == Miss
  {
    hide TrimSpace, HasSuffix, ShownName, IndexOf, AllPlain;
    NameIsPlain(s.name);
    TypeIsPlain(s.typ);
    LineParts(config, s.name, s.typ);
    DeclSuffix(config, s, MANAGED_BY, marker);
  }

  lemma MarkedEntry(config: string, name: string, e: Entry, marker: string)
    requires ConfigName(config) && ShownName(name) && ShownName(e.opt) && e.vals != [] && AllPlain(e.vals) && '\'' !in marker
    ensures MarkedBy(config, marker, EntryLine(config, name, e))
      == if e.opt == MANAGED_BY && e.vals == [marker] then Hit(name) else Miss
  {
    hide TrimSpace, HasSuffix, ShownName, IndexOf, AllPlain, Shown;
    NameIsPlain(name);
    NameIsPlain(e.opt);
    ShownEnds(e.vals);
    var left := name + "." + e.opt;
    var line := EntryLine(config, name, e);
    assert line == config + "." + left + "=" + Shown(e.vals);
    LineParts(config, left, Shown(e.vals));
    assert ShownName(MANAGED_BY) by { MarkerOptIsName(); }
    EntrySuffix(config, name, e, MANAGED_BY, marker);
    var rest := line[|config| + 1..];
    assert rest == name + ['.'] + (e.opt + "=" + Shown(e.vals));
    IndexOfHead(name, '.', e.opt + "=" + Shown(e.vals));
    assert rest[..|name|] == name;
  }

  lemma MarkerOptIsName()
    ensures ShownName(MANAGED_BY)
  {
    assert forall c :: c in MANAGED_BY ==> IsWordChar(c);
  }

  predicate EntryMarks(es: seq<Entry>, marker: string) {
    exists e :: e in es && e.opt == MANAGED_BY && e.vals == [marker]
  }

  /** The section carries the marker, as it is shown. */
  predicate ShowsMarker(s: Sec, marker: string) {
    EntryMarks(s.entries, marker)
  }

  function MarkedSecs(ss: seq<Sec>, marker: string): seq<string> {
    if ss == [] then []
    else MarkedSecs(ss[..|ss| - 1], marker) + (if ShowsMarker(ss[|ss| - 1], marker) then [ss[|ss| - 1].name] else [])
  }

  /** One more line scanned. */
  function Noted(names: seq<string>, h: Hit): seq<string> {
    if h.Hit? && h.name != "" && h.name !in names then names + [h.name] else names
  }

  lemma NamesSnoc(config: string, marker: string, ls: seq<string>, l: string)
    requires MarkedNames(config, marker, ls).Some? && !MarkedBy(config, marker, l).Crash?
    ensures MarkedNames(config, marker, ls + [l]) == Some(Noted(MarkedNames(config, marker, ls).value, MarkedBy(config, marker, l)))
  {
    hide MarkedBy;
    assert (ls + [l])[..|ls|] == ls;
  }

  lemma {:induction false} ScanEntries(config: string, marker: string, ls: seq<string>, name: string, es: seq<Entry>, names: seq<string>)
    requires ConfigName(config) && ShownName(name) && '\'' !in marker && name !in names
    requires forall e :: e in es ==> ShownName(e.opt) && e.vals != [] && AllPlain(e.vals)
    requires MarkedNames(config, marker, ls) == Some(names)
    ensures MarkedNames(config, marker, ls + EntryLines(config, name, es))
      == Some(if EntryMarks(es, marker) then names + [name] else names)
    decreases |es|
  {
    hide MarkedBy, ShownName, ConfigName, TypeName, AllPlain, EntryLine, MarkedNames;
    if es == [] {
      assert ls + [] == ls;
    } else {
      var init, e := es[..|es| - 1], es[|es| - 1];
      assert e in es && es == init + [e];
      ScanEntries(config, marker, ls, name, init, names);
      MarkedEntry(config, name, e, marker);
      NamesSnoc(config, marker, ls + EntryLines(config, name, init), EntryLine(config, name, e));
      assert ls + EntryLines(config, name, init) + [EntryLine(config, name, e)] == ls + EntryLines(config, name, es);
      assert EntryMarks(es, marker) <==> EntryMarks(init, marker) || (e.opt == MANAGED_BY && e.vals == [marker]);
      NameIsPlain(name);
    }
  }

  lemma {:induction false} MarkedSecsAreNames(ss: seq<Sec>, marker: string)
    ensures forall n :: n in MarkedSecs(ss, marker) <==> exists s :: s in ss && s.name == n && ShowsMarker(s, marker)
  {
    hide ShowsMarker;
    if ss != [] {
      var init, last := ss[..|ss| - 1], ss[|ss| - 1];
      assert ss == init + [last];
      MarkedSecsAreNames(init, marker);
    }
  }

  lemma NotYetMarked(ss: seq<Sec>, marker: string)
    requires ss != [] && AllShowable(ss)
    ensures ss[|ss| - 1].name !in MarkedSecs(ss[..|ss| - 1], marker)
  {
    hide ShowsMarker, Showable, MarkedSecs;
    var init, last := ss[..|ss| - 1], ss[|ss| - 1];
    MarkedSecsAreNames(init, marker);
    forall s | s in init ensures s.name != last.name {
      var k :| 0 <= k < |init| && init[k] == s;
      assert ss[k] == s;
    }
  }

  lemma ShowsIsEntryMarks(s: Sec, marker: string)
    ensures ShowsMarker(s, marker) <==> EntryMarks(s.entries, marker)
  {
  }

  lemma {:induction false} ScanSecs(config: string, marker: string, ss: seq<Sec>)
    requires ConfigName(config) && '\'' !in marker && AllShowable(ss)
    ensures MarkedNames(config, marker, SecLines(config, ss)) == Some(MarkedSecs(ss, marker))
  {
    hide MarkedBy, ShownName, ConfigName, TypeName, AllPlain, EntryLines, DeclLine, AllShowable, Position, ShowsMarker;
    if ss == [] {
    } else {
      hide MarkedNames;
      var init, s := ss[..|ss| - 1], ss[|ss| - 1];
      FreshName(ss);
      NotYetMarked(ss, marker);
      ScanSecs(config, marker, init);
      MarkedDecl(config, s, marker);
      NamesSnoc(config, marker, SecLines(config, init), DeclLine(config, s));
      ScanEntries(config, marker, SecLines(config, init) + [DeclLine(config, s)], s.name, s.entries, MarkedSecs(init, marker));
      ShowsIsEntryMarks(s, marker);
      assert MarkedSecs(init, marker) + [] == MarkedSecs(init, marker);
    }
  }

  /** On shown text the scan names exactly the sections whose marker option holds the
      marker, each once and in order. */
  lemma ScanOfShow(config: string, marker: string, ss: seq<Sec>)
    requires ConfigName(config) && '\'' !in marker && AllShowable(ss)
    ensures MarkedNames(config, marker, Split(ShowText(config, ss), '\n')) == Some(MarkedSecs(ss, marker))
    ensures forall n :: n in MarkedSecs(ss, marker) <==> exists s :: s in ss && s.name == n && ShowsMarker(s, marker)
  {
    hide SecLines, MarkedBy, AllShowable, ShownName, MarkedSecs, ShowsMarker;
    var ls := SecLines(config, ss);
    SecsNoBreak(config, ss);
    LinesOfText(ls);
    ScanSecs(config, marker, ss);
    EmptyMisses(config, marker);
    NamesSnoc(config, marker, ls, "");
    MarkedSecsAreNames(ss, marker);
  }

  lemma EmptyMisses(config: string, marker: string)
    ensures MarkedBy(config, marker, "") == Miss
  {
  }

  lemma EndsWith(a: string, b: string)
    ensures HasSuffix(a + b, b)
  {
  }

  lemma NoDot(opt: string, marker: string)
    requires '.' !in opt && '.' !in marker
    ensures MarkerSuffix(opt, marker) != "" && MarkerSuffix(opt, marker)[0] == '.' && '.' !in MarkerSuffix(opt, marker)[1..]
  {
    assert MarkerSuffix(opt, marker)[1..] == opt + "=" + Quoted(marker);
  }

  /** A line with both ends is longer than the two together, unless they share the dot. */
  lemma SharedDot(line: string, config: string, suffix: string)
    requires HasPrefix(line, config + ".") && HasSuffix(line, suffix) && suffix != "" && suffix[0] == '.' && '.' !in suffix[1..]
    ensures '.' !in line[|config| + 1..] <==> line == config + suffix
  {
    var at := |line| - |suffix|;
    assert forall k :: at < k < |line| ==> line[k] == suffix[1..][k - at - 1];
    assert line[at] == '.';
    assert line[|config|] == (config + ".")[|config|];
    assert line[..|config|] == line[..|config| + 1][..|config|];
    if at > |config| {
      assert line[|config| + 1..][at - |config| - 1] == '.';
      assert |line| != |config + suffix|;
    } else {
      assert at == |config|;
      assert line == line[..at] + line[at..];
      assert line[at..][1..] == line[|config| + 1..];
    }
  }

  /** The scan fails on a line exactly if it is only prefix and suffix sharing their dot. */
  lemma CrashExactly(config: string, marker: string, raw: string)
    requires '.' !in marker
    ensures MarkedBy(config, marker, raw) == Crash <==> TrimSpace(raw) == config + MarkerSuffix(MANAGED_BY, marker)
  {
    hide IndexOf, TrimSpace, HasPrefix, HasSuffix, MarkerSuffix;
    var line, suffix := TrimSpace(raw), MarkerSuffix(MANAGED_BY, marker);
    assert '.' !in MANAGED_BY;
    NoDot(MANAGED_BY, marker);
    if HasPrefix(line, config + ".") && HasSuffix(line, suffix) {
      SharedDot(line, config, suffix);
      DotFound(line[|config| + 1..]);
    } else if line == config + suffix {
      EndsWith(config, suffix);
      StartsWith(config, suffix);
      assert false;
    }
  }

  lemma DotFound(s: string)
    ensures IndexOf(s, '.') == |s| <==> '.' !in s
  {
  }

  lemma StartsWith(a: string, b: string)
    requires b != "" && b[0] == '.'
    ensures HasPrefix(a + b, a + ".")
  {
    assert (a + b)[..|a| + 1] == a + ".";
  }

  /** The scan of a text fails exactly if it has such a line. */
  lemma {:induction false} ScanCrashes(config: string, marker: string, lines: seq<string>)
    requires '.' !in marker
    ensures MarkedNames(config, marker, lines).None? <==>
      exists l :: l in lines && TrimSpace(l) == config + MarkerSuffix(MANAGED_BY, marker)
  {
    hide MarkedBy, TrimSpace, MarkerSuffix;
    if lines != [] {
      var init, last := lines[..|lines| - 1], lines[|lines| - 1];
      assert lines == init + [last];
      ScanCrashes(config, marker, init);
      CrashExactly(config, marker, last);
    }
  }

  /** The system's own output has none. */
  lemma ShowHasNoBareMarker(config: string, marker: string, ss: seq<Sec>, l: string)
    requires ConfigName(config) && '\'' !in marker && '.' !in marker && AllShowable(ss)
    requires l in Split(ShowText(config, ss), '\n')
    ensures TrimSpace(l) != config + MarkerSuffix(MANAGED_BY, marker)
  {
    hide MarkedNames, AllShowable, TrimSpace, MarkerSuffix, ConfigName;
    ScanOfShow(config, marker, ss);
    ScanCrashes(config, marker, Split(ShowText(config, ss), '\n'));
  }

  // ---- the text and the configuration ----

  /** `ss` goes through the sections of a configuration in some order, and through the
      options of each in some order. */
  ghost predicate Walks(ss: seq<Sec>, c: Config) {
    && (forall n :: n in c ==> exists s :: s in ss && s.name == n)
    && (forall s :: s in ss ==> s.name in c && s.typ == c[s.name].typ && OptsOf(s.entries) == c[s.name].opts)
  }

  lemma {:induction false} EntryIsOption(es: seq<Entry>, o: Opt, vs: seq<string>)
    requires forall j, k :: 0 <= j < k < |es| ==> es[j].opt != es[k].opt
    ensures (o in OptsOf(es) && OptsOf(es)[o] == vs) <==> exists e :: e in es && e.opt == o && e.vals == vs
    ensures o in OptsOf(es) <==> exists e :: e in es && e.opt == o
  {
    if es != [] {
      var init, last := es[..|es| - 1], es[|es| - 1];
      assert es == init + [last];
      EntryIsOption(init, o, vs);
      if e :| e in init && e.opt == o {
        var k :| 0 <= k < |init| && init[k] == e;
        assert es[k].opt != es[|es| - 1].opt;
      }
    }
  }

  lemma MarkedAlike(s: Sec, c: Config, marker: string)
    requires Showable(s) && s.name in c && OptsOf(s.entries) == c[s.name].opts
    ensures ShowsMarker(s, marker) <==> s.name in Marked(c, marker)
  {
    hide OptsOf, ShownName, TypeName, AllPlain;
    EntryIsOption(s.entries, MANAGED_BY, [marker]);
  }

  /** The scan of the shown text finds exactly the sections that carry the marker, which
      is what the projections collect from. */
  lemma ScanIsMarked(config: string, marker: string, ss: seq<Sec>, c: Config)
    requires ConfigName(config) && '\'' !in marker && AllShowable(ss) && Walks(ss, c)
    ensures MarkedNames(config, marker, Split(ShowText(config, ss), '\n')) == Some(MarkedSecs(ss, marker))
    ensures (set n | n in MarkedSecs(ss, marker)) == Marked(c, marker)
  {
    hide MarkedNames, ShowText, ConfigName, Showable, ShowsMarker, OptsOf, Marked, MarkedSecs;
    ScanOfShow(config, marker, ss);
    forall s | s in ss ensures ShowsMarker(s, marker) <==> s.name in Marked(c, marker) {
      MarkedAlike(s, c, marker);
    }
    MarkedAreSections(c, marker);
  }

  lemma MarkedAreSections(c: Config, marker: string)
    ensures forall n :: n in Marked(c, marker) ==> n in c
  {
  }

  /** What is parsed from the shown text is the configuration. */
  lemma ParsedIsConfig(config: string, ss: seq<Sec>, c: Config, n: string)
    requires ConfigName(config) && AllShowable(ss) && Walks(ss, c)
    ensures n in c <==> exists u :: u in Parsed(ShowText(config, ss), config) && u.name == n
    ensures forall u :: u in Parsed(ShowText(config, ss), config) && u.name == n ==> u.typ == c[n].typ && u.opts == c[n].opts
  {
    hide ShowText, ConfigName, Showable, OptsOf, Parsed;
    ParseOfShow(config, ss);
    var r := ReadAll(ss);
    forall u | u in r ensures exists s :: s in ss && u == Read(s) {
      var k :| 0 <= k < |r| && r[k] == u;
      assert ss[k] in ss;
    }
    forall s | s in ss ensures Read(s) in r {
      var k :| 0 <= k < |ss| && ss[k] == s;
      assert r[k] in r;
    }
  }
}
