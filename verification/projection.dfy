/** What every projection of the router tools does to a configuration file: it
    writes the sections it wants, stamps each with its own marker, and collects
    the sections that carry that marker and are no longer wanted. */
module Projection {
  import opened Uci

  /** One wanted section. */
  datatype Write = Write(sec: string, typ: string, patch: Patch)

  function Names(ws: seq<Write>): set<string> {
    set w | w in ws :: w.sec
  }

  function WriteAll(c: Config, ws: seq<Write>): Config {
    if ws == [] then c
    else
      var w := ws[|ws| - 1];
      WriteSec(WriteAll(c, ws[..|ws| - 1]), w.sec, w.typ, w.patch)
  }

  lemma WriteAllSnoc(c: Config, ws: seq<Write>, w: Write)
    ensures WriteAll(c, ws + [w]) == WriteSec(WriteAll(c, ws), w.sec, w.typ, w.patch)
    ensures Names(ws + [w]) == Names(ws) + {w.sec}
  {
    assert (ws + [w])[..|ws|] == ws;
    forall x ensures x in ws + [w] <==> x in ws || x == w {
    }
  }

  // ---- the net effect of a list of writes on one section ----

  function FinalType(ws: seq<Write>, s: string): string {
    if ws == [] then ""
    else if ws[|ws| - 1].sec == s then ws[|ws| - 1].typ
    else FinalType(ws[..|ws| - 1], s)
  }

  function FinalPatch(ws: seq<Write>, s: string): Patch {
    if ws == [] then map[]
    else if ws[|ws| - 1].sec == s then FinalPatch(ws[..|ws| - 1], s) + ws[|ws| - 1].patch
    else FinalPatch(ws[..|ws| - 1], s)
  }

  lemma OverlayCompose(opts: Opts, p: Patch, q: Patch)
    ensures Overlay(Overlay(opts, p), q) == Overlay(opts, p + q)
  {
    forall o ensures OptGet(Overlay(Overlay(opts, p), q), o) == OptGet(Overlay(opts, p + q), o) {
      OverlayGet(Overlay(opts, p), q, o);
      OverlayGet(opts, p, o);
      OverlayGet(opts, p + q, o);
    }
    OptsExtensional(Overlay(Overlay(opts, p), q), Overlay(opts, p + q));
  }

  lemma NamesSplit(ws: seq<Write>)
    requires ws != []
    ensures Names(ws) == Names(ws[..|ws| - 1]) + {ws[|ws| - 1].sec}
  {
    assert ws == ws[..|ws| - 1] + [ws[|ws| - 1]];
    WriteAllSnoc(map[], ws[..|ws| - 1], ws[|ws| - 1]);
  }

  /** A written section has its last type and all its patches, later ones first;
      every other section is what it was. */
  lemma {:induction false} WriteAllAt(c: Config, ws: seq<Write>, s: string)
    ensures s in Names(ws) ==> s in WriteAll(c, ws)
    ensures s in Names(ws) ==>
      WriteAll(c, ws)[s] == Section(FinalType(ws, s), Overlay(OldOpts(c, s), FinalPatch(ws, s)))
    ensures s !in Names(ws) ==> (s in WriteAll(c, ws) <==> s in c)
    ensures s !in Names(ws) && s in c ==> WriteAll(c, ws)[s] == c[s]
  {
    if ws != [] {
      var init, w := ws[..|ws| - 1], ws[|ws| - 1];
      WriteAllAt(c, init, s);
      NamesSplit(ws);
      if w.sec == s {
        if s in Names(init) {
          OverlayCompose(OldOpts(c, s), FinalPatch(init, s), w.patch);
        } else {
          FinalPatchOutside(init, s);
          assert FinalPatch(ws, s) == w.patch;
        }
      }
    }
  }

  lemma FinalPatchOutside(ws: seq<Write>, s: string)
    requires s !in Names(ws)
    ensures FinalPatch(ws, s) == map[]
  {
    if ws != [] {
      NamesSplit(ws);
      FinalPatchOutside(ws[..|ws| - 1], s);
    }
  }

  /** Two sections of one name are the same section. */
  ghost predicate Consistent(ws: seq<Write>) {
    forall v, w :: v in ws && w in ws && v.sec == w.sec ==> v == w
  }

  lemma {:induction false} ConsistentFinal(ws: seq<Write>, w: Write)
    requires Consistent(ws) && w in ws
    ensures FinalType(ws, w.sec) == w.typ && FinalPatch(ws, w.sec) == w.patch
  {
    var init, last := ws[..|ws| - 1], ws[|ws| - 1];
    assert forall v :: v in init ==> v in ws;
    if last.sec == w.sec {
      assert last == w;
      if w in init {
        ConsistentFinal(init, w);
      } else {
        assert w.sec !in Names(init);
        FinalPatchOutside(init, w.sec);
      }
    } else {
      assert w in init;
      ConsistentFinal(init, w);
    }
  }

  /** With consistent names every wanted section ends up as wanted. */
  lemma WrittenAsWanted(c: Config, ws: seq<Write>, w: Write)
    requires Consistent(ws) && w in ws
    ensures w.sec in WriteAll(c, ws)
    ensures WriteAll(c, ws)[w.sec] == Section(w.typ, Overlay(OldOpts(c, w.sec), w.patch))
  {
    WriteAllAt(c, ws, w.sec);
    ConsistentFinal(ws, w);
  }

  // ---- the projection ----

  ghost predicate AllStamped(ws: seq<Write>, marker: string) {
    forall w :: w in ws ==> MANAGED_BY in w.patch && w.patch[MANAGED_BY] == [marker]
  }

  /** The sections of this marker that are no longer wanted. */
  function Orphans(c: Config, ws: seq<Write>, marker: string): set<string> {
    Marked(c, marker) - Names(ws)
  }

  function Project(c: Config, ws: seq<Write>, marker: string): Config {
    WriteAll(c, ws) - Orphans(c, ws, marker)
  }

  lemma FinalStamp(ws: seq<Write>, s: string, marker: string)
    requires AllStamped(ws, marker) && s in Names(ws)
    ensures MANAGED_BY in FinalPatch(ws, s) && FinalPatch(ws, s)[MANAGED_BY] == [marker]
  {
    var init, w := ws[..|ws| - 1], ws[|ws| - 1];
    NamesSplit(ws);
    assert w in ws;
    if w.sec != s {
      assert forall v :: v in init ==> v in ws;
      FinalStamp(init, s, marker);
    }
  }

  /** What is in the configuration after a projection, section by section. */
  lemma ProjectAt(c: Config, ws: seq<Write>, marker: string, s: string)
    ensures s in Names(ws) ==> s in Project(c, ws, marker)
    ensures s in Names(ws) ==>
      Project(c, ws, marker)[s] == Section(FinalType(ws, s), Overlay(OldOpts(c, s), FinalPatch(ws, s)))
    ensures s !in Names(ws) ==>
      (s in Project(c, ws, marker) <==> s in c && !CarriesMarker(c[s], marker))
    ensures s !in Names(ws) && s in Project(c, ws, marker) ==> Project(c, ws, marker)[s] == c[s]
  {
    WriteAllAt(c, ws, s);
  }

  /** The marker is on exactly the wanted sections afterwards. */
  lemma ProjectOwns(c: Config, ws: seq<Write>, marker: string)
    requires AllStamped(ws, marker)
    ensures Marked(Project(c, ws, marker), marker) == Names(ws)
  {
    var after := Project(c, ws, marker);
    forall s ensures s in Marked(after, marker) <==> s in Names(ws) {
      ProjectAt(c, ws, marker, s);
      if s in Names(ws) {
        FinalStamp(ws, s, marker);
        OverlayGet(OldOpts(c, s), FinalPatch(ws, s), MANAGED_BY);
      }
    }
  }

  /** A projection under one marker leaves the sections of another alone, as long
      as it does not generate one of their names. */
  lemma ProjectSpares(c: Config, ws: seq<Write>, marker: string, other: string)
    requires AllStamped(ws, marker) && other != marker
    ensures Marked(Project(c, ws, marker), other) == Marked(c, other) - Names(ws)
  {
    var after := Project(c, ws, marker);
    forall s ensures s in Marked(after, other) <==> s in Marked(c, other) && s !in Names(ws) {
      ProjectAt(c, ws, marker, s);
      if s in Names(ws) {
        FinalStamp(ws, s, marker);
        OverlayGet(OldOpts(c, s), FinalPatch(ws, s), MANAGED_BY);
      }
    }
  }

  /** Only sections with the projection's own marker are ever deleted. */
  lemma ProjectDeletesOwn(c: Config, ws: seq<Write>, marker: string)
    ensures c.Keys - Project(c, ws, marker).Keys == Orphans(c, ws, marker)
  {
    forall s ensures s in c.Keys - Project(c, ws, marker).Keys <==> s in Orphans(c, ws, marker) {
      ProjectAt(c, ws, marker, s);
    }
  }

  lemma ProjectTwice(c: Config, ws: seq<Write>, marker: string)
    requires AllStamped(ws, marker)
    ensures Project(Project(c, ws, marker), ws, marker) == Project(c, ws, marker)
  {
    var once := Project(c, ws, marker);
    var twice := Project(once, ws, marker);
    ProjectOwns(c, ws, marker);
    forall s ensures (s in twice <==> s in once) && (s in once ==> twice[s] == once[s]) {
      ProjectAt(c, ws, marker, s);
      ProjectAt(once, ws, marker, s);
      if s in Names(ws) {
        OverlayTwice(OldOpts(c, s), FinalPatch(ws, s));
      }
    }
  }
}
